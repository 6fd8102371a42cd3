/** `_rebalance_psi_tree`: groups the children of oversized nodes, in place. */
module PsiRebalance {
  import opened PsiNodes
  import B = PsiBuckets

  /** `gs` holds the trees of `ts`, in order, under the extra nodes `made`. */
  ghost predicate Covers(gs: seq<Shape>, ts: seq<Shape>, made: set<PsiTreeNode>) {
    && SeparateAll(gs) && SeparateAll(ts)
    && NodesOf(gs) == NodesOf(ts) + made && made !! NodesOf(ts)
    && LeavesOf(gs) == LeavesOf(ts)
  }

  ghost predicate FanoutAll(ts: seq<Shape>, max: nat) {
    forall k :: 0 <= k < |ts| ==> FanoutAtMost(ts[k], max)
  }

  ghost predicate BranchingAll(ts: seq<Shape>) {
    forall k :: 0 <= k < |ts| ==> Branching(ts[k])
  }

  // ---------- what regrouping makes of a tree

  /** A tree in which only the nodes outside of `made` keep their identity. */
  datatype Skeleton = Skeleton(node: PsiTreeNode?, kids: seq<Skeleton>)

  ghost function SkeletonOf(t: Shape, made: set<PsiTreeNode>): Skeleton
    decreases t, 1
  {
    Skeleton(if t.node in made then null else t.node, SkeletonsOf(t.kids, made))
  }

  ghost function SkeletonsOf(ts: seq<Shape>, made: set<PsiTreeNode>): (s: seq<Skeleton>)
    ensures |s| == |ts| && forall k :: 0 <= k < |ts| ==> s[k] == SkeletonOf(ts[k], made)
    decreases ts, 0
  {
    seq(|ts|, k requires 0 <= k < |ts| => SkeletonOf(ts[k], made))
  }

  /** Members `i * max` up to the next multiple of `max`. */
  function Portion<T>(s: seq<T>, max: nat, i: nat): (b: seq<T>) {
    s[B.Min(i * max, |s|)..B.Min((i + 1) * max, |s|)]
  }

  /** A batch of one stays as it is, a larger one goes under a new node. */
  function Batch(b: seq<Skeleton>): Skeleton {
    if |b| == 1 then b[0] else Skeleton(null, b)
  }

  function Batches(s: seq<Skeleton>, max: nat): (g: seq<Skeleton>)
    requires max > 0
    ensures |g| == B.CeilDiv(|s|, max) && forall i: nat :: i < |g| ==> g[i] == Batch(Portion(s, max, i))
  {
    seq(B.CeilDiv(|s|, max), i requires 0 <= i => Batch(Portion(s, max, i)))
  }

  lemma FewerBatches(n: nat, max: nat)
    requires n > max >= 2
    ensures 2 <= B.CeilDiv(n, max) < n
  {
    var q := B.CeilDiv(n, max);
    B.MulOrder(q, 1, max);
    assert (q - 1) * max == q * max - max;
    B.MulAtLeastTwo(q - 1, max);
  }

  /** Batches of batches, until there are at most `max`. */
  function Bounded(s: seq<Skeleton>, max: nat): seq<Skeleton>
    requires max >= 2
    decreases |s|
  {
    if |s| <= max then s else FewerBatches(|s|, max); Bounded(Batches(s, max), max)
  }

  /** The tree with the children of every node so bounded, from the leaves up. */
  ghost function Regrouped(t: Shape, max: nat): Skeleton
    requires max >= 2
    decreases t, 1
  {
    Skeleton(t.node, Bounded(RegroupedAll(t.kids, max), max))
  }

  ghost function RegroupedAll(ts: seq<Shape>, max: nat): (s: seq<Skeleton>)
    requires max >= 2
    ensures |s| == |ts| && forall k :: 0 <= k < |ts| ==> s[k] == Regrouped(ts[k], max)
    decreases ts, 0
  {
    seq(|ts|, k requires 0 <= k < |ts| => Regrouped(ts[k], max))
  }

  /** New nodes in one round of batching `n` children: one a batch, unless the last has one member. */
  function NewParents(n: nat, max: nat): nat
    requires max >= 2
  {
    B.CeilDiv(n, max) - if n % max == 1 then 1 else 0
  }

  /** New nodes in all rounds over `n` children. */
  function NewBelow(n: nat, max: nat): nat
    requires max >= 2
    decreases n
  {
    if n <= max then 0 else FewerBatches(n, max); NewParents(n, max) + NewBelow(B.CeilDiv(n, max), max)
  }

  /** New nodes in the whole tree, as its numbers of children ask for. */
  ghost function NewNodes(t: Shape, max: nat): nat
    requires max >= 2
    decreases t, 1
  {
    NewNodesOf(t.kids, max) + NewBelow(|t.kids|, max)
  }

  ghost function NewNodesOf(ts: seq<Shape>, max: nat): nat
    requires max >= 2
    decreases ts, 0
  {
    if ts == [] then 0 else NewNodesOf(ts[..|ts| - 1], max) + NewNodes(ts[|ts| - 1], max)
  }

  /** Nodes that occur nowhere in the trees do not move their skeletons. */
  lemma {:induction false} SkeletonIgnores(ts: seq<Shape>, a: set<PsiTreeNode>, b: set<PsiTreeNode>)
    requires NodesOf(ts) !! b
    ensures SkeletonsOf(ts, a + b) == SkeletonsOf(ts, a)
    decreases ts
  {
    forall k | 0 <= k < |ts| ensures SkeletonOf(ts[k], a + b) == SkeletonOf(ts[k], a) {
      assert ts[k] in ts && ts[k].node in Nodes(ts[k]);
      assert NodesOf(ts[k].kids) <= Nodes(ts[k]) <= NodesOf(ts);
      SkeletonIgnores(ts[k].kids, a, b);
    }
  }

  /** The batch `b` of trees is one tree of its own, or hangs under the new node `g.node`. */
  ghost predicate OneBatch(g: Shape, b: seq<Shape>, made: set<PsiTreeNode>) {
    if |b| == 1 then g == b[0] else g.kids == b && g.node in made
  }

  /** `gs` are the trees `ts` in batches of `max`, the last one with what is left. */
  ghost predicate Batched(gs: seq<Shape>, ts: seq<Shape>, max: nat, made: set<PsiTreeNode>)
    requires max > 0
  {
    |gs| == B.CeilDiv(|ts|, max) && forall i: nat :: i < |gs| ==> OneBatch(gs[i], Portion(ts, max, i), made)
  }

  /** Batching trees batches their skeletons. */
  lemma BatchedSkeletons(gs: seq<Shape>, ts: seq<Shape>, max: nat, prev: set<PsiTreeNode>, made: set<PsiTreeNode>)
    requires max > 0 && Batched(gs, ts, max, made) && made !! NodesOf(ts)
    ensures SkeletonsOf(gs, prev + made) == Batches(SkeletonsOf(ts, prev), max)
  {
    hide SkeletonsOf, NodesOf, Batches;
    var all := prev + made;
    SkeletonIgnores(ts, prev, made);
    forall i: nat | i < |gs| ensures SkeletonOf(gs[i], all) == Batch(Portion(SkeletonsOf(ts, prev), max, i)) {
      var b := Portion(ts, max, i);
      assert OneBatch(gs[i], b, made);
      assert Portion(SkeletonsOf(ts, all), max, i) == SkeletonsOf(b, all);
    }
  }

  lemma NodesConcat(a: seq<Shape>, b: seq<Shape>)
    ensures NodesOf(a + b) == NodesOf(a) + NodesOf(b)
    ensures HeadSet(a + b) == HeadSet(a) + HeadSet(b)
  {
    forall x | x in NodesOf(a) + NodesOf(b) ensures x in NodesOf(a + b) {
      if x in NodesOf(a) { var k :| k in a && x in Nodes(k); assert k in a + b; }
      else { var k :| k in b && x in Nodes(k); assert k in a + b; }
    }
    forall x | x in HeadSet(a) + HeadSet(b) ensures x in HeadSet(a + b) {
      if x in HeadSet(a) { var k :| 0 <= k < |a| && x == a[k].node; assert (a + b)[k] == a[k]; }
      else { var k :| 0 <= k < |b| && x == b[k].node; assert (a + b)[|a| + k] == b[k]; }
    }
  }

  lemma SeparateConcat(a: seq<Shape>, b: seq<Shape>)
    ensures SeparateAll(a + b) <==> SeparateAll(a) && SeparateAll(b) && NodesOf(a) !! NodesOf(b)
  {
    var c := a + b;
    if SeparateAll(c) {
      assert forall k :: 0 <= k < |a| ==> c[k] == a[k];
      assert forall k :: 0 <= k < |b| ==> c[|a| + k] == b[k];
      forall j, k | 0 <= j < k < |b| ensures Nodes(b[j]) !! Nodes(b[k]) {
        assert Nodes(c[|a| + j]) !! Nodes(c[|a| + k]);
      }
      forall x | x in NodesOf(a) ensures x !in NodesOf(b) {
        var j :| 0 <= j < |a| && x in Nodes(a[j]);
        forall k | 0 <= k < |b| ensures x !in Nodes(b[k]) { assert Nodes(c[j]) !! Nodes(c[|a| + k]); }
      }
    }
    if SeparateAll(a) && SeparateAll(b) && NodesOf(a) !! NodesOf(b) {
      forall j, k | 0 <= j < k < |c| ensures Nodes(c[j]) !! Nodes(c[k]) {
        if j < |a| <= k { assert Nodes(c[j]) <= NodesOf(a) && Nodes(c[k]) <= NodesOf(b); }
      }
    }
  }

  lemma CoversConcat(gs: seq<Shape>, ts: seq<Shape>, made: set<PsiTreeNode>,
                     hs: seq<Shape>, us: seq<Shape>, more: set<PsiTreeNode>)
    requires Covers(gs, ts, made) && Covers(hs, us, more) && SeparateAll(ts + us)
    requires made !! more && made !! NodesOf(us) && more !! NodesOf(ts)
    ensures Covers(gs + hs, ts + us, made + more)
  {
    hide SeparateAll, NodesOf, LeavesOf;
    SeparateConcat(ts, us);
    SeparateConcat(gs, hs);
    NodesConcat(ts, us);
    NodesConcat(gs, hs);
    LeavesConcat(gs, hs);
    LeavesConcat(ts, us);
  }

  lemma CoversOne(t: Shape, us: seq<Shape>, made: set<PsiTreeNode>)
    requires Separate(t) && SeparateAll(us) && made !! NodesOf(us)
    requires Nodes(t) == NodesOf(us) + made && Leaves(t) == LeavesOf(us)
    ensures Covers([t], us, made)
  {
    assert LeavesOf([t]) == Leaves(t) + LeavesOf([t][1..]);
    assert NodesOf([t]) == Nodes(t);
  }

  lemma CoversParent(p: PsiTreeNode, us: seq<Shape>)
    requires SeparateAll(us) && us != [] && p !in NodesOf(us)
    ensures Covers([Shape(p, us)], us, {p})
  {
    var t := Shape(p, us);
    assert Nodes(t) == NodesOf(us) + {p};
    assert Separate(t);
    CoversOne(t, us, {p});
  }

  ghost predicate Attached(ts: seq<Shape>, node: PsiTreeNode?)
    reads HeadSet(ts)`parent
  {
    forall k :: 0 <= k < |ts| ==> ts[k].node in HeadSet(ts) && ts[k].node.parent == node
  }

  /** Create a parent node over a batch of children. */
  method CreatePsiParent(index: nat, batch: seq<PsiTreeNode>, ghost ts: seq<Shape>) returns (p: PsiTreeNode)
    requires Heads(ts) == batch && SeparateAll(ts) && WiredAll(ts)
    modifies HeadSet(ts)`parent
    ensures fresh(p) && p.index == index && p.children == batch && p.parent == null && p.text == ""
    ensures Attached(ts, p) && WiredAll(ts)
  {
    hide SeparateAll, WiredAll, NodesOf;
    ghost var all := NodesOf(ts);
    assert allocated(all);
    p := new PsiTreeNode(index);
    p.children := batch;
    for k := 0 to |batch|
      invariant forall m :: 0 <= m < k ==> batch[m].parent == p
      invariant WiredAll(ts) && p.children == batch && p.parent == null && p.text == ""
    {
      batch[k].parent := p;
    }
  }

  lemma WiredParent(p: PsiTreeNode, ts: seq<Shape>)
    requires SeparateAll(ts) && WiredAll(ts) && p !in NodesOf(ts)
    requires p.children == Heads(ts) && Attached(ts, p)
    ensures Wired(Shape(p, ts))
  {
    var t := Shape(p, ts);
    forall k | 0 <= k < |ts| ensures t.kids[k].node in Nodes(t) - {t.node} {
      assert ts[k].node in Nodes(ts[k]) && ts[k] in ts;
    }
  }

  lemma WiredOne(t: Shape)
    requires SeparateAll([t]) && WiredAll([t])
    ensures Separate(t) && Wired(t) && Covers([t], [t], {}) && NodesOf([t]) == Nodes(t) && HeadSet([t]) == {t.node}
  {
    assert Separate([t][0]) && Wired([t][0]);
  }

  /** One batch of the grouping: kept as it is when it has one child, else put under a new node. */
  method GroupBatch(node: PsiTreeNode, batch: seq<PsiTreeNode>, next: nat, ghost ts: seq<Shape>)
    returns (g: PsiTreeNode, next': nat, ghost s: Shape, ghost made: set<PsiTreeNode>)
    requires batch != [] && Heads(ts) == batch && SeparateAll(ts) && WiredAll(ts)
    modifies HeadSet(ts)`parent
    ensures s.node == g && g.parent == node && Separate(s) && Wired(s)
    ensures Covers([s], ts, made) && fresh(made) && Numbered(made, next, next') && NoText(made)
    ensures |ts| == 1 ==> s == ts[0] && made == {}
    ensures |ts| > 1 ==> s.kids == ts && made == {s.node}
  {
    hide SeparateAll, WiredAll, NodesOf, Covers, Wired, Separate, Nodes;
    next' := next;
    if |batch| == 1 {
      s, made := ts[0], {};
      assert ts == [s];
      WiredOne(s);
      g := batch[0];
      g.parent := node;
    } else {
      ghost var all := NodesOf(ts);
      assert allocated(all);
      g := CreatePsiParent(next, batch, ts);
      s, made := Shape(g, ts), {g};
      assert g !in all;
      CoversParent(g, ts);
      CoversSeparate(s, ts, made);
      WiredParent(g, ts);
      g.parent := node;
      next' := next + 1;
    }
  }

  lemma CoversSeparate(s: Shape, ts: seq<Shape>, made: set<PsiTreeNode>)
    requires Covers([s], ts, made)
    ensures Separate(s) && Nodes(s) == NodesOf(ts) + made && made !! NodesOf(ts) && Leaves(s) == LeavesOf(ts)
  {
    assert Separate([s][0]);
    assert LeavesOf([s]) == Leaves(s) + LeavesOf([s][1..]);
    assert NodesOf([s]) == Nodes(s);
  }

  lemma WiredConcat(a: seq<Shape>, b: seq<Shape>)
    requires SeparateAll(a + b)
    ensures SeparateAll(a) && SeparateAll(b)
    ensures WiredAll(a + b) <==> WiredAll(a) && WiredAll(b)
  {
    SeparateConcat(a, b);
    var c := a + b;
    assert forall k :: 0 <= k < |a| ==> c[k] == a[k];
    assert forall k :: 0 <= k < |b| ==> c[|a| + k] == b[k];
    if WiredAll(c) {
      forall k | 0 <= k < |b| ensures Wired(b[k]) { assert Wired(c[|a| + k]); }
    }
  }

  lemma AttachedConcat(a: seq<Shape>, b: seq<Shape>, node: PsiTreeNode?)
    ensures Attached(a + b, node) <==> Attached(a, node) && Attached(b, node)
  {
    var c := a + b;
    assert forall k :: 0 <= k < |a| ==> c[k] == a[k];
    assert forall k :: 0 <= k < |b| ==> c[|a| + k] == b[k];
    if Attached(c, node) {
      forall k | 0 <= k < |b| ensures b[k].node in HeadSet(b) && b[k].node.parent == node {
        assert c[|a| + k].node.parent == node;
      }
    }
  }

  lemma HeadsInNodes(ts: seq<Shape>)
    ensures HeadSet(ts) <= NodesOf(ts)
  {
    forall x | x in HeadSet(ts) ensures x in NodesOf(ts) {
      var k :| 0 <= k < |ts| && ts[k].node == x;
      assert ts[k] in ts && x in Nodes(ts[k]);
    }
  }

  /** One round of grouping: fewer children, the same leaves, and every batch under one node. */
  method GroupChildren(node: PsiTreeNode, max: nat, next: nat, ghost ts: seq<Shape>)
    returns (grouped: seq<PsiTreeNode>, next': nat, ghost gs: seq<Shape>, ghost made: set<PsiTreeNode>)
    requires 2 <= max < |ts| && node.children == Heads(ts)
    requires SeparateAll(ts) && WiredAll(ts)
    modifies HeadSet(ts)`parent
    ensures Heads(gs) == grouped && 2 <= |gs| < |ts|
    ensures Covers(gs, ts, made) && WiredAll(gs) && Attached(gs, node)
    ensures fresh(made) && Numbered(made, next, next') && NoText(made)
    ensures Batched(gs, ts, max, made) && next' == next + NewParents(|ts|, max)
    ensures FanoutAll(ts, max) ==> FanoutAll(gs, max)
    ensures BranchingAll(ts) ==> BranchingAll(gs)
  {
    hide SeparateAll, WiredAll, NodesOf, Covers, Wired, Separate, Nodes, LeavesOf, Attached, HeadSet, FanoutAll,
         BranchingAll, Numbered, Heads, GroupDone, BatchedTo, Batched, NewParents, ParentsTo, NoText;
    ghost var all := NodesOf(ts);
    assert allocated(all);
    var children := node.children;
    var start := 0;
    grouped, next', gs, made := [], next, [], {};
    GroupStart(node, next, max, ts);
    NoTextUnion({}, {});
    while start < |children|
      invariant start <= |children| && GroupDone(ts, start, gs, made, max) && |grouped| == |gs| && grouped == Heads(gs)
      invariant SeparateAll(gs) && WiredAll(gs) && Attached(gs, node)
      invariant SeparateAll(ts[start..]) && WiredAll(ts[start..])
      invariant fresh(made) && made !! all && Numbered(made, next, next') && NoText(made)
      invariant BatchedTo(gs, ts, max, start, made) && next' == next + ParentsTo(|gs|, |ts|, start, max)
      decreases |children| - start
    {
      var end := if start + max <= |children| then start + max else |children|;
      ghost var b, rest := ts[start..end], ts[end..];
      SplitThree(ts, start, end);
      PrefixOf(ts, start, end);
      GroupNodes(ts, start, gs, made, max);
      HeadsInNodes(b);
      HeadsInNodes(gs);
      assert allocated(NodesOf(gs)) && allocated(NodesOf(rest));
      var g, n, s, m := GroupBatch(node, children[start..end], next', b);
      assert m !! made && m !! all;
      BatchJoined(node, ts, start, end, gs, made, max, s, m, next, next', n);
      grouped, next', gs, made, start := grouped + [g], n, gs + [s], made + m, end;
    }
    GroupEnd(ts, gs, made, max);
    BatchEnd(ts, gs, made, max);
  }

  /** One more batch joins those grouped so far. */
  lemma BatchJoined(node: PsiTreeNode, ts: seq<Shape>, start: nat, end: nat, gs: seq<Shape>, made: set<PsiTreeNode>,
                    max: nat, s: Shape, m: set<PsiTreeNode>, next: nat, mid: nat, next': nat)
    requires GroupDone(ts, start, gs, made, max) && BatchedTo(gs, ts, max, start, made) && SeparateAll(ts)
    requires start < |ts| && end == (if start + max <= |ts| then start + max else |ts|) && max >= 2
    requires SeparateAll(gs) && WiredAll(gs) && Attached(gs, node)
    requires s.node.parent == node && Separate(s) && Wired(s)
    requires Covers([s], ts[start..end], m) && m !! made && m !! NodesOf(ts) && made !! NodesOf(ts)
    requires end - start == 1 ==> s == ts[start..end][0] && m == {}
    requires end - start > 1 ==> s.kids == ts[start..end] && m == {s.node}
    requires Numbered(made, next, mid) && Numbered(m, mid, next') && NoText(made) && NoText(m)
    requires mid == next + ParentsTo(|gs|, |ts|, start, max)
    ensures GroupDone(ts, end, gs + [s], made + m, max) && BatchedTo(gs + [s], ts, max, end, made + m)
    ensures SeparateAll(gs + [s]) && WiredAll(gs + [s]) && Attached(gs + [s], node)
    ensures Numbered(made + m, next, next') && NoText(made + m)
    ensures next' == next + ParentsTo(|gs| + 1, |ts|, end, max) && Heads(gs + [s]) == Heads(gs) + [s.node]
  {
    hide SeparateAll, WiredAll, NodesOf, Covers, Wired, Separate, Nodes, Attached, Numbered, GroupDone, BatchedTo,
         ParentsTo, NoText;
    NumberedUnion(made, m, next, mid, next');
    NoTextUnion(made, m);
    GroupStep(ts, start, end, gs, made, max, s, m);
    BatchStep(ts, start, end, gs, made, max, s, m);
    CountStep(m, mid, next');
    WiredSingle(s);
    WiredConcat(gs, [s]);
    AttachedSingle(s, node);
    AttachedConcat(gs, [s], node);
    HeadsSnoc(gs, s);
  }

  /** The first `start` children stand in batches of `max`. */
  ghost predicate BatchedTo(gs: seq<Shape>, ts: seq<Shape>, max: nat, start: nat, made: set<PsiTreeNode>) {
    && start == B.Min(|gs| * max, |ts|) && (gs != [] ==> (|gs| - 1) * max < |ts|)
    && forall i: nat :: i < |gs| ==> OneBatch(gs[i], Portion(ts, max, i), made)
  }

  /** New nodes over the first `k` batches: the last batch may be a single child. */
  function ParentsTo(k: nat, n: nat, start: nat, max: nat): int
    requires max >= 2
  {
    k - if start == n && n % max == 1 then 1 else 0
  }

  lemma CountStep(m: set<PsiTreeNode>, next: nat, next': nat)
    requires Numbered(m, next, next')
    ensures next' == next + |m|
  {
  }

  lemma BatchStep(ts: seq<Shape>, start: nat, end: nat, gs: seq<Shape>, made: set<PsiTreeNode>, max: nat,
                  s: Shape, m: set<PsiTreeNode>)
    requires BatchedTo(gs, ts, max, start, made) && start < |ts| && max >= 2
    requires end == (if start + max <= |ts| then start + max else |ts|)
    requires end - start == 1 ==> s == ts[start..end][0] && m == {}
    requires end - start > 1 ==> s.kids == ts[start..end] && m == {s.node}
    ensures BatchedTo(gs + [s], ts, max, end, made + m)
    ensures |m| + ParentsTo(|gs|, |ts|, start, max) == ParentsTo(|gs| + 1, |ts|, end, max)
  {
    var k, hs := |gs|, gs + [s];
    assert (k + 1) * max == k * max + max && start == k * max;
    assert Portion(ts, max, k) == ts[start..end];
    forall i: nat | i < |hs| ensures OneBatch(hs[i], Portion(ts, max, i), made + m) {
      if i < k { assert hs[i] == gs[i]; } else { assert hs[i] == s; }
    }
    LastBatch(|ts|, k, max);
  }

  /** Whether the batch from `k * max` on is a single last child. */
  lemma LastBatch(n: nat, k: nat, max: nat)
    requires k * max < n && max >= 2
    ensures n <= k * max + max ==> (n - k * max == 1 <==> n % max == 1)
  {
    if n <= k * max + max {
      var r := n - k * max;
      if r == max {
        RemainderIs(n, k + 1, 0, max);
      } else {
        RemainderIs(n, k, r, max);
      }
    }
  }

  lemma RemainderIs(n: nat, q: nat, r: nat, max: nat)
    requires r < max && n == q * max + r
    ensures n % max == r
  {
    var d := n / max;
    assert n == d * max + n % max;
    assert (q + 1) * max == q * max + max && (d + 1) * max == d * max + max;
    B.MulOrder(q + 1, d, max);
    B.MulOrder(d + 1, q, max);
  }

  lemma BatchEnd(ts: seq<Shape>, gs: seq<Shape>, made: set<PsiTreeNode>, max: nat)
    requires BatchedTo(gs, ts, max, |ts|, made) && 2 <= max < |ts|
    ensures Batched(gs, ts, max, made) && ParentsTo(|gs|, |ts|, |ts|, max) == NewParents(|ts|, max)
  {
    assert gs != [] ==> (|gs| - 1) * max == |gs| * max - max;
    B.CeilDivIs(|ts|, max, |gs|);
  }

  /** The first `start` children are grouped into `gs`, at most `max` under one node. */
  ghost predicate GroupDone(ts: seq<Shape>, start: nat, gs: seq<Shape>, made: set<PsiTreeNode>, max: nat) {
    && 2 <= max < |ts| && start <= |ts| && Covers(gs, ts[..start], made)
    && ((start == 0 && gs == []) || (start == max && |gs| == 1) || |gs| >= 2)
    && 2 * |gs| <= start + 1 && (start < |ts| ==> 2 * |gs| <= start)
    && (FanoutAll(ts, max) ==> FanoutAll(gs, max))
    && (BranchingAll(ts) ==> BranchingAll(gs))
  }

  lemma GroupStart(node: PsiTreeNode, next: nat, max: nat, ts: seq<Shape>)
    requires 2 <= max < |ts|
    ensures GroupDone(ts, 0, [], {}, max) && SeparateAll([]) && WiredAll([]) && Attached([], node)
    ensures Numbered({}, next, next) && BatchedTo([], ts, max, 0, {}) && ParentsTo(0, |ts|, 0, max) == 0
    ensures ts[0..] == ts && Heads([]) == [] && |Heads(ts)| == |ts|
  {
    EmptyCover(node, next, max);
    assert ts[..0] == [];
  }

  lemma GroupNodes(ts: seq<Shape>, start: nat, gs: seq<Shape>, made: set<PsiTreeNode>, max: nat)
    requires GroupDone(ts, start, gs, made, max)
    ensures start <= |ts| && NodesOf(gs) == NodesOf(ts[..start]) + made
  {
  }

  lemma GroupStep(ts: seq<Shape>, start: nat, end: nat, gs: seq<Shape>, made: set<PsiTreeNode>, max: nat,
                  s: Shape, m: set<PsiTreeNode>)
    requires GroupDone(ts, start, gs, made, max) && SeparateAll(ts) && start < |ts|
    requires end == (if start + max <= |ts| then start + max else |ts|)
    requires Covers([s], ts[start..end], m) && m !! made && m !! NodesOf(ts) && made !! NodesOf(ts)
    requires end - start == 1 ==> s == ts[start..end][0]
    requires end - start > 1 ==> s.kids == ts[start..end]
    ensures GroupDone(ts, end, gs + [s], made + m, max) && SeparateAll(gs + [s])
  {
    hide Covers, NodesOf, SeparateAll, Nodes, FanoutAll, BranchingAll;
    PrefixOf(ts, start, end);
    assert ts[..start] + ts[start..end] == ts[..end];
    CoversConcat(gs, ts[..start], made, [s], ts[start..end], m);
    CoversNodes(gs + [s], ts[..end], made + m);
    assert end - start == 1 ==> [s] == ts[start..end];
    GrowthKept(ts, start, end, gs, s, max);
  }

  lemma GroupEnd(ts: seq<Shape>, gs: seq<Shape>, made: set<PsiTreeNode>, max: nat)
    requires GroupDone(ts, |ts|, gs, made, max)
    ensures Covers(gs, ts, made) && 2 <= |gs| < |ts|
    ensures FanoutAll(ts, max) ==> FanoutAll(gs, max)
    ensures BranchingAll(ts) ==> BranchingAll(gs)
  {
    assert ts[..|ts|] == ts;
  }

  lemma EmptyCover(node: PsiTreeNode?, next: nat, max: nat)
    ensures Covers([], [], {}) && SeparateAll([]) && WiredAll([]) && Attached([], node)
    ensures Numbered({}, next, next) && FanoutAll([], max) && BranchingAll([])
  {
  }

  lemma WiredSingle(s: Shape)
    requires Separate(s) && Wired(s)
    ensures SeparateAll([s]) && WiredAll([s])
  {
  }

  lemma AttachedSingle(s: Shape, node: PsiTreeNode?)
    requires s.node.parent == node
    ensures Attached([s], node)
  {
    assert [s][0].node in HeadSet([s]);
  }

  /** Cutting a separate, wired list in three keeps all parts so, over disjoint nodes. */
  lemma SplitThree(ts: seq<Shape>, i: nat, j: nat)
    requires i <= j <= |ts| && SeparateAll(ts[i..])
    ensures ts[i..] == ts[i..j] + ts[j..] && ts[..i] + ts[i..j] == ts[..j]
    ensures SeparateAll(ts[i..j]) && SeparateAll(ts[j..]) && NodesOf(ts[i..j]) !! NodesOf(ts[j..])
    ensures WiredAll(ts[i..]) ==> WiredAll(ts[i..j]) && WiredAll(ts[j..])
    ensures Heads(ts)[i..j] == Heads(ts[i..j])
  {
    hide SeparateAll, NodesOf, WiredAll;
    assert ts[i..] == ts[i..j] + ts[j..];
    SeparateConcat(ts[i..j], ts[j..]);
    WiredConcat(ts[i..j], ts[j..]);
  }

  lemma CoversNodes(gs: seq<Shape>, ts: seq<Shape>, made: set<PsiTreeNode>)
    requires Covers(gs, ts, made)
    ensures SeparateAll(gs) && SeparateAll(ts) && NodesOf(gs) == NodesOf(ts) + made && made !! NodesOf(ts)
    ensures LeavesOf(gs) == LeavesOf(ts)
  {
  }

  lemma PrefixOf(ts: seq<Shape>, i: nat, j: nat)
    requires i <= j <= |ts| && SeparateAll(ts)
    ensures SeparateAll(ts[..i] + ts[i..j]) && NodesOf(ts[..i]) !! NodesOf(ts[i..j])
    ensures NodesOf(ts[..i]) <= NodesOf(ts) && NodesOf(ts[i..j]) <= NodesOf(ts) && NodesOf(ts[j..]) <= NodesOf(ts)
    ensures HeadSet(ts[i..j]) <= HeadSet(ts)
    ensures NodesOf(ts[..i]) !! NodesOf(ts[j..]) && NodesOf(ts[i..j]) !! NodesOf(ts[j..])
  {
    hide SeparateAll, NodesOf, HeadSet;
    var a, b, c := ts[..i], ts[i..j], ts[j..];
    assert ts == (a + b) + c;
    SeparateConcat(a + b, c);
    SeparateConcat(a, b);
    NodesConcat(a + b, c);
    NodesConcat(a, b);
  }

  /** Grouping a batch of at most `max` trees keeps the fanout bound and the branching. */
  lemma GrowthKept(ts: seq<Shape>, i: nat, j: nat, gs: seq<Shape>, s: Shape, max: nat)
    requires i < j <= |ts| && j - i <= max
    requires [s] == ts[i..j] || (s.kids == ts[i..j] && j - i > 1)
    ensures FanoutAll(ts, max) && FanoutAll(gs, max) ==> FanoutAll(gs + [s], max)
    ensures BranchingAll(ts) && BranchingAll(gs) ==> BranchingAll(gs + [s])
  {
    forall k | 0 <= k < j - i ensures ts[i..j][k] == ts[i + k] { }
    if [s] == ts[i..j] { assert s == ts[i..j][0]; }
  }

  lemma HeadsSnoc(gs: seq<Shape>, s: Shape)
    ensures Heads(gs + [s]) == Heads(gs) + [s.node]
  {
  }

  lemma SelfCovers(ts: seq<Shape>)
    requires SeparateAll(ts)
    ensures Covers(ts, ts, {})
  {
  }

  lemma CoversTrans(hs: seq<Shape>, gs: seq<Shape>, ts: seq<Shape>, made: set<PsiTreeNode>, more: set<PsiTreeNode>)
    requires Covers(gs, ts, made) && Covers(hs, gs, more)
    ensures Covers(hs, ts, made + more)
  {
  }

  lemma AttachedHeads(a: seq<Shape>, b: seq<Shape>, node: PsiTreeNode?)
    requires Heads(a) == Heads(b) && Attached(a, node)
    ensures Attached(b, node)
  {
    forall k | 0 <= k < |b| ensures b[k].node in HeadSet(b) && b[k].node.parent == node {
      assert Heads(a)[k] == Heads(b)[k];
    }
  }

  /** What a wired tree says about the children of its root. */
  lemma WiredKids(t: Shape)
    requires Separate(t) && Wired(t)
    ensures SeparateAll(t.kids) && WiredAll(t.kids) && Attached(t.kids, t.node) && t.node.children == Heads(t.kids)
    ensures t.node !in NodesOf(t.kids) && NodesOf(t.kids) + {t.node} == Nodes(t)
  {
  }

  /** Rebalance every child of `node` in turn. */
  method RebalanceKids(node: PsiTreeNode, max: nat, next: nat, ghost ts: seq<Shape>)
    returns (next': nat, ghost cur: seq<Shape>, ghost made: set<PsiTreeNode>)
    requires max >= 2 && SeparateAll(ts) && WiredAll(ts) && node.children == Heads(ts)
    modifies NodesOf(ts)`children, (NodesOf(ts) - HeadSet(ts))`parent
    ensures Heads(cur) == Heads(ts) && Covers(cur, ts, made) && WiredAll(cur)
    ensures fresh(made) && Numbered(made, next, next') && NoText(made)
    ensures FanoutAll(cur, max)
    ensures BranchingAll(ts) ==> BranchingAll(cur)
    ensures SkeletonsOf(cur, made) == RegroupedAll(ts, max) && next' == next + NewNodesOf(ts, max)
    ensures FanoutAll(ts, max) ==> cur == ts && made == {}
    decreases ts, 0
  {
    hide SeparateAll, WiredAll, NodesOf, Covers, Wired, Separate, Nodes, LeavesOf, HeadSet, FanoutAll, FanoutAtMost,
         BranchingAll, Branching, Numbered, Heads, KidsDone, RebuiltTo, SkeletonsOf, SkeletonOf, RegroupedAll,
         Regrouped, NewNodesOf, NewNodes, NoText, FanoutAtMost, Branching;
    ghost var all := NodesOf(ts);
    assert allocated(all);
    var children := node.children;
    next', cur, made := next, [], {};
    KidsStart(node, next, max, ts);
    RebuiltStart(ts, max, next);
    NoTextUnion({}, {});
    for k := 0 to |children|
      invariant KidsDone(ts, k, cur, made, max) && SeparateAll(cur) && WiredAll(cur)
      invariant SeparateAll(ts[k..]) && WiredAll(ts[k..])
      invariant fresh(made) && made !! all && Numbered(made, next, next') && NoText(made)
      invariant RebuiltTo(ts, k, cur, made, max, next, next')
    {
      SplitKid(ts, k);
      KidsNodes(ts, k, cur, made, max);
      assert allocated(NodesOf(cur)) && allocated(NodesOf(ts[k + 1..]));
      var n, c, m := Rebalance(children[k], max, next', ts[k]);
      assert m !! made && m !! all;
      KidJoined(ts, k, cur, made, max, c, m, next, next', n);
      next', cur, made := n, cur + [c], made + m;
    }
    KidsEnd(ts, cur, made, max);
    RebuiltEnd(ts, cur, made, max, next, next');
  }

  /** One more rebalanced child joins those done so far. */
  lemma KidJoined(ts: seq<Shape>, k: nat, cur: seq<Shape>, made: set<PsiTreeNode>, max: nat, c: Shape,
                  m: set<PsiTreeNode>, next: nat, mid: nat, next': nat)
    requires k < |ts| && KidsDone(ts, k, cur, made, max) && RebuiltTo(ts, k, cur, made, max, next, mid)
    requires SeparateAll(ts) && SeparateAll(cur) && WiredAll(cur) && Separate(c) && Wired(c)
    requires c.node == ts[k].node && Covers([c], [ts[k]], m) && m !! made && m !! NodesOf(ts) && made !! NodesOf(ts)
    requires FanoutAtMost(c, max) && (Branching(ts[k]) ==> Branching(c)) && Nodes(ts[k]) <= NodesOf(ts)
    requires m !! NodesOf(cur) && NodesOf([ts[k]]) == Nodes(ts[k])
    requires Numbered(made, next, mid) && Numbered(m, mid, next') && NoText(made) && NoText(m) && max >= 2
    requires SkeletonOf(c, m) == Regrouped(ts[k], max) && next' == mid + NewNodes(ts[k], max)
    requires FanoutAtMost(ts[k], max) ==> c == ts[k] && m == {}
    ensures KidsDone(ts, k + 1, cur + [c], made + m, max) && SeparateAll(cur + [c]) && WiredAll(cur + [c])
    ensures RebuiltTo(ts, k + 1, cur + [c], made + m, max, next, next')
    ensures Numbered(made + m, next, next') && NoText(made + m)
  {
    hide SeparateAll, WiredAll, NodesOf, Covers, Wired, Separate, Nodes, FanoutAtMost, Branching, Numbered, KidsDone,
         RebuiltTo, SkeletonOf, Regrouped, NewNodes, NoText;
    NumberedUnion(made, m, next, mid, next');
    NoTextUnion(made, m);
    KidsStep(ts, k, cur, made, max, c, m);
    CoversSeparate(c, [ts[k]], m);
    RebuiltStep(ts, k, cur, made, max, c, m, next, mid, next');
    WiredSingle(c);
    WiredConcat(cur, [c]);
  }

  /** The first `k` children are regrouped into `cur`, or kept if they need no regrouping. */
  ghost predicate RebuiltTo(ts: seq<Shape>, k: nat, cur: seq<Shape>, made: set<PsiTreeNode>, max: nat, next: nat,
                            next': nat) {
    && 2 <= max && k <= |ts| && SkeletonsOf(cur, made) == RegroupedAll(ts[..k], max)
    && next' == next + NewNodesOf(ts[..k], max)
    && (FanoutAll(ts[..k], max) ==> cur == ts[..k] && made == {})
  }

  lemma RebuiltStart(ts: seq<Shape>, max: nat, next: nat)
    requires max >= 2
    ensures RebuiltTo(ts, 0, [], {}, max, next, next)
  {
    assert ts[..0] == [];
  }

  lemma {:induction false} RebuiltStep(ts: seq<Shape>, k: nat, cur: seq<Shape>, made: set<PsiTreeNode>, max: nat,
                                       c: Shape, m: set<PsiTreeNode>, next: nat, mid: nat, next': nat)
    requires RebuiltTo(ts, k, cur, made, max, next, mid) && k < |ts|
    requires NodesOf(cur) !! m && Nodes(c) !! made
    requires SkeletonOf(c, m) == Regrouped(ts[k], max) && next' == mid + NewNodes(ts[k], max)
    requires FanoutAtMost(ts[k], max) ==> c == ts[k] && m == {}
    ensures RebuiltTo(ts, k + 1, cur + [c], made + m, max, next, next')
  {
    hide SkeletonsOf, SkeletonOf, RegroupedAll, Regrouped, NewNodes, NewNodesOf, NodesOf, Nodes, FanoutAll;
    assert ts[..k + 1] == ts[..k] + [ts[k]];
    SkeletonsSnoc(cur, made, c, m);
    RegroupedSnoc(ts[..k], ts[k], max);
    NewNodesSnoc(ts[..k], ts[k], max);
    FanoutSnoc(ts[..k], ts[k], max);
  }

  lemma NewNodesSnoc(ts: seq<Shape>, t: Shape, max: nat)
    requires max >= 2
    ensures NewNodesOf(ts + [t], max) == NewNodesOf(ts, max) + NewNodes(t, max)
  {
    hide NewNodes;
    assert (ts + [t])[..|ts|] == ts;
  }

  lemma FanoutSnoc(ts: seq<Shape>, t: Shape, max: nat)
    ensures FanoutAll(ts + [t], max) <==> FanoutAll(ts, max) && FanoutAtMost(t, max)
  {
    hide FanoutAtMost;
    var all := ts + [t];
    if FanoutAll(all, max) {
      assert forall k :: 0 <= k < |ts| ==> all[k] == ts[k];
      assert all[|ts|] == t;
    }
  }

  lemma SkeletonsSnoc(cur: seq<Shape>, made: set<PsiTreeNode>, c: Shape, m: set<PsiTreeNode>)
    requires NodesOf(cur) !! m && Nodes(c) !! made
    ensures SkeletonsOf(cur + [c], made + m) == SkeletonsOf(cur, made) + [SkeletonOf(c, m)]
  {
    hide SkeletonsOf, SkeletonOf, NodesOf, Nodes;
    SkeletonIgnores(cur, made, m);
    LeavesOne(c);
    SkeletonIgnores([c], m, made);
    assert m + made == made + m;
    assert SkeletonsOf([c], made + m)[0] == SkeletonsOf([c], m)[0];
  }

  lemma RegroupedSnoc(ts: seq<Shape>, t: Shape, max: nat)
    requires max >= 2
    ensures RegroupedAll(ts + [t], max) == RegroupedAll(ts, max) + [Regrouped(t, max)]
  {
    hide RegroupedAll, Regrouped;
  }

  lemma RebuiltEnd(ts: seq<Shape>, cur: seq<Shape>, made: set<PsiTreeNode>, max: nat, next: nat, next': nat)
    requires RebuiltTo(ts, |ts|, cur, made, max, next, next')
    ensures max >= 2 && SkeletonsOf(cur, made) == RegroupedAll(ts, max) && next' == next + NewNodesOf(ts, max)
    ensures FanoutAll(ts, max) ==> cur == ts && made == {}
  {
    assert ts[..|ts|] == ts;
  }

  /** The first `k` children are rebalanced into `cur`. */
  ghost predicate KidsDone(ts: seq<Shape>, k: nat, cur: seq<Shape>, made: set<PsiTreeNode>, max: nat) {
    && k <= |ts| && Heads(cur) == Heads(ts)[..k] && Covers(cur, ts[..k], made)
    && FanoutAll(cur, max) && (BranchingAll(ts) ==> BranchingAll(cur))
  }

  lemma KidsStart(node: PsiTreeNode, next: nat, max: nat, ts: seq<Shape>)
    ensures KidsDone(ts, 0, [], {}, max) && SeparateAll([]) && WiredAll([]) && Numbered({}, next, next)
    ensures ts[0..] == ts && |Heads(ts)| == |ts|
  {
    EmptyCover(node, next, max);
    assert ts[..0] == [] && Heads(ts)[..0] == [] == Heads([]);
  }

  lemma KidsNodes(ts: seq<Shape>, k: nat, cur: seq<Shape>, made: set<PsiTreeNode>, max: nat)
    requires KidsDone(ts, k, cur, made, max)
    ensures NodesOf(cur) == NodesOf(ts[..k]) + made
  {
  }

  lemma KidsStep(ts: seq<Shape>, k: nat, cur: seq<Shape>, made: set<PsiTreeNode>, max: nat, c: Shape,
                 m: set<PsiTreeNode>)
    requires k < |ts| && KidsDone(ts, k, cur, made, max) && SeparateAll(ts)
    requires c.node == ts[k].node && Covers([c], [ts[k]], m) && m !! made && m !! NodesOf(ts) && made !! NodesOf(ts)
    requires FanoutAtMost(c, max) && (Branching(ts[k]) ==> Branching(c))
    ensures KidsDone(ts, k + 1, cur + [c], made + m, max) && SeparateAll(cur + [c])
  {
    hide Covers, NodesOf, SeparateAll, Nodes;
    PrefixOf(ts, k, k + 1);
    assert ts[k..k + 1] == [ts[k]] && ts[..k] + [ts[k]] == ts[..k + 1];
    CoversConcat(cur, ts[..k], made, [c], [ts[k]], m);
    CoversNodes(cur + [c], ts[..k + 1], made + m);
    HeadsSnoc(cur, c);
  }

  lemma KidsEnd(ts: seq<Shape>, cur: seq<Shape>, made: set<PsiTreeNode>, max: nat)
    requires KidsDone(ts, |ts|, cur, made, max)
    ensures Heads(cur) == Heads(ts) && Covers(cur, ts, made) && FanoutAll(cur, max)
    ensures (BranchingAll(ts) ==> BranchingAll(cur))
  {
    assert ts[..|ts|] == ts;
  }

  /** The subtree of child `k`, cut out of a separate, wired list. */
  lemma SplitKid(ts: seq<Shape>, k: nat)
    requires k < |ts| && SeparateAll(ts) && SeparateAll(ts[k..]) && WiredAll(ts[k..])
    ensures Separate(ts[k]) && Wired(ts[k]) && Covers([ts[k]], [ts[k]], {})
    ensures Nodes(ts[k]) <= NodesOf(ts) && Nodes(ts[k]) - {ts[k].node} <= NodesOf(ts) - HeadSet(ts)
    ensures NodesOf(ts[..k]) <= NodesOf(ts) && NodesOf(ts[k + 1..]) <= NodesOf(ts) && NodesOf([ts[k]]) == Nodes(ts[k])
    ensures Nodes(ts[k]) !! NodesOf(ts[..k]) && Nodes(ts[k]) !! NodesOf(ts[k + 1..])
    ensures SeparateAll(ts[k + 1..]) && WiredAll(ts[k + 1..])
    ensures ts[..k] + [ts[k]] == ts[..k + 1] && SeparateAll(ts[..k] + [ts[k]])
  {
    hide SeparateAll, NodesOf, HeadSet, WiredAll, Covers, Wired, Separate, Nodes;
    SplitThree(ts, k, k + 1);
    PrefixOf(ts, k, k + 1);
    assert ts[k..k + 1] == [ts[k]];
    WiredOne(ts[k]);
    OnlyHead(ts, k);
  }

  /** Group the children of `node` until there are at most `max`. */
  method GroupUntilBounded(node: PsiTreeNode, max: nat, next: nat, ghost ts: seq<Shape>,
                           ghost prev: set<PsiTreeNode>)
    returns (next': nat, ghost cur: seq<Shape>, ghost made: set<PsiTreeNode>)
    requires max >= 2 && SeparateAll(ts) && WiredAll(ts) && node.children == Heads(ts)
    requires node !in NodesOf(ts) && Attached(ts, node) && FanoutAll(ts, max)
    modifies node`children, NodesOf(ts)`parent
    ensures node.children == Heads(cur) && Covers(cur, ts, made) && WiredAll(cur) && Attached(cur, node)
    ensures fresh(made) && Numbered(made, next, next') && NoText(made)
    ensures FanoutAll(cur, max) && |cur| <= max && (|cur| == |ts| || |cur| >= 2)
    ensures BranchingAll(ts) ==> BranchingAll(cur)
    ensures SkeletonsOf(cur, prev + made) == Bounded(SkeletonsOf(ts, prev), max)
    ensures next' == next + NewBelow(|ts|, max) && (|ts| <= max ==> cur == ts && made == {})
  {
    hide SeparateAll, WiredAll, NodesOf, Wired, Separate, Nodes, LeavesOf, HeadSet, FanoutAll, FanoutAtMost,
         BranchingAll, Branching, Numbered, Heads, Covers, SkeletonsOf, Batched, Bounded, NewParents,
         NewBelow, NoText, RoundsTo, Attached, B.CeilDiv;
    ghost var all := NodesOf(ts);
    assert allocated(all);
    next', cur, made := next, ts, {};
    SelfCovers(ts);
    EmptyCover(node, next, max);
    NoTextUnion({}, {});
    RoundsStart(ts, max, prev, next);
    while |node.children| > max
      invariant Heads(cur) == node.children
      invariant Covers(cur, ts, made) && SeparateAll(cur) && NodesOf(cur) == all + made
      invariant WiredAll(cur) && Attached(cur, node)
      invariant fresh(made) && Numbered(made, next, next') && NoText(made)
      invariant FanoutAll(cur, max) && (|cur| == |ts| || |cur| >= 2)
      invariant BranchingAll(ts) ==> BranchingAll(cur)
      invariant RoundsTo(ts, cur, max, prev, made, next, next')
      decreases |node.children|
    {
      HeadsInNodes(cur);
      assert allocated(made);
      var grouped, n, gs, m := GroupChildren(node, max, next', cur);
      RoundDone(ts, gs, cur, max, prev, made, m, next, next', n);
      assert fresh(made + m);
      assert node !in NodesOf(gs) && allocated(NodesOf(gs));
      node.children := grouped;
      next', cur, made := n, gs, made + m;
    }
    RoundsEnd(ts, cur, max, prev, made, next, next');
  }

  /** What is left of the bounding of `ts` is the bounding of `cur`. */
  ghost predicate RoundsTo(ts: seq<Shape>, cur: seq<Shape>, max: nat, prev: set<PsiTreeNode>,
                           made: set<PsiTreeNode>, next: nat, next': nat)
    requires max >= 2
  {
    && Bounded(SkeletonsOf(cur, prev + made), max) == Bounded(SkeletonsOf(ts, prev), max)
    && next' + NewBelow(|cur|, max) == next + NewBelow(|ts|, max)
    && (|ts| <= max ==> cur == ts && made == {})
  }

  lemma RoundsStart(ts: seq<Shape>, max: nat, prev: set<PsiTreeNode>, next: nat)
    requires max >= 2
    ensures RoundsTo(ts, ts, max, prev, {}, next, next)
  {
    assert prev + {} == prev;
  }

  /** One more round is what the bounded lists and the number of new nodes are defined by. */
  lemma RoundStep(ts: seq<Shape>, gs: seq<Shape>, cur: seq<Shape>, max: nat, prev: set<PsiTreeNode>,
                  made: set<PsiTreeNode>, m: set<PsiTreeNode>, next: nat, mid: nat, next': nat)
    requires 2 <= max < |cur| && RoundsTo(ts, cur, max, prev, made, next, mid)
    requires Batched(gs, cur, max, m) && m !! NodesOf(cur) && next' == mid + NewParents(|cur|, max)
    ensures RoundsTo(ts, gs, max, prev, made + m, next, next')
  {
    hide SkeletonsOf, Batches, NodesOf, NewParents;
    assert (prev + made) + m == prev + (made + m);
    BatchedSkeletons(gs, cur, max, prev + made, m);
  }

  /** One more round of grouping on top of the rounds so far. */
  lemma RoundDone(ts: seq<Shape>, gs: seq<Shape>, cur: seq<Shape>, max: nat, prev: set<PsiTreeNode>,
                  made: set<PsiTreeNode>, m: set<PsiTreeNode>, next: nat, mid: nat, next': nat)
    requires 2 <= max < |cur| && RoundsTo(ts, cur, max, prev, made, next, mid)
    requires Covers(cur, ts, made) && Covers(gs, cur, m) && NodesOf(cur) == NodesOf(ts) + made
    requires Batched(gs, cur, max, m) && next' == mid + NewParents(|cur|, max)
    requires Numbered(made, next, mid) && Numbered(m, mid, next') && NoText(made) && NoText(m)
    ensures Covers(gs, ts, made + m) && SeparateAll(gs) && NodesOf(gs) == NodesOf(ts) + (made + m)
    ensures Numbered(made + m, next, next') && NoText(made + m)
    ensures RoundsTo(ts, gs, max, prev, made + m, next, next')
  {
    hide SeparateAll, NodesOf, Numbered, Covers, Batched, NewParents, NoText, RoundsTo;
    CoversNodes(gs, cur, m);
    CoversTrans(gs, cur, ts, made, m);
    NumberedUnion(made, m, next, mid, next');
    NoTextUnion(made, m);
    RoundStep(ts, gs, cur, max, prev, made, m, next, mid, next');
  }

  lemma RoundsEnd(ts: seq<Shape>, cur: seq<Shape>, max: nat, prev: set<PsiTreeNode>, made: set<PsiTreeNode>,
                  next: nat, next': nat)
    requires max >= 2 && RoundsTo(ts, cur, max, prev, made, next, next') && |cur| <= max
    ensures SkeletonsOf(cur, prev + made) == Bounded(SkeletonsOf(ts, prev), max)
    ensures next' == next + NewBelow(|ts|, max) && (|ts| <= max ==> cur == ts && made == {})
  {
  }

  /** Rebalance the subtree below `node`: children first, then groups of at most `max`. */
  method Rebalance(node: PsiTreeNode, max: nat, next: nat, ghost t: Shape)
    returns (next': nat, ghost t': Shape, ghost made: set<PsiTreeNode>)
    requires max >= 2 && t.node == node && Separate(t) && Wired(t)
    modifies Nodes(t)`children, (Nodes(t) - {node})`parent
    ensures t'.node == node && Separate(t') && Wired(t')
    ensures Covers([t'], [t], made) && fresh(made) && Numbered(made, next, next') && NoText(made)
    ensures FanoutAtMost(t', max)
    ensures Branching(t) ==> Branching(t')
    ensures SkeletonOf(t', made) == Regrouped(t, max) && next' == next + NewNodes(t, max)
    ensures FanoutAtMost(t, max) ==> t' == t && made == {}
    decreases t, 1
  {
    hide SeparateAll, WiredAll, NodesOf, Wired, Separate, Nodes, LeavesOf, HeadSet, FanoutAll,
         BranchingAll, Numbered, Heads, Covers, SkeletonsOf, SkeletonOf, RegroupedAll, Regrouped, Bounded,
         NewNodesOf, NewNodes, NewBelow, FanoutAtMost, Branching, NoText, Attached, B.CeilDiv;
    ghost var ts, all := t.kids, Nodes(t);
    assert allocated(all);
    WiredKids(t);
    HeadsInNodes(ts);
    var n, mid, m := RebalanceKids(node, max, next, ts);
    CoversNodes(mid, ts, m);
    AttachedHeads(ts, mid, node);
    ghost var cur, more;
    next', cur, more := GroupUntilBounded(node, max, n, mid, m);
    t', made := Shape(node, cur), m + more;
    CoversNodes(cur, mid, more);
    assert t.node !in m + more;
    RootDone(t', t, mid, m, more, max, next, n, next');
  }

  /** The node with its children rebalanced and bounded. */
  lemma RootDone(t': Shape, t: Shape, mid: seq<Shape>, m: set<PsiTreeNode>, more: set<PsiTreeNode>, max: nat,
                 next: nat, between: nat, next': nat)
    requires max >= 2 && Separate(t) && t'.node == t.node && t.node !in m + more && |mid| == |t.kids|
    requires Covers(mid, t.kids, m) && Covers(t'.kids, mid, more)
    requires SeparateAll(t'.kids) && WiredAll(t'.kids)
    requires t'.node.children == Heads(t'.kids) && Attached(t'.kids, t'.node)
    requires Numbered(m, next, between) && Numbered(more, between, next') && NoText(m) && NoText(more)
    requires FanoutAll(t'.kids, max) && |t'.kids| <= max && (|t'.kids| == |mid| || |t'.kids| >= 2)
    requires BranchingAll(t.kids) ==> BranchingAll(t'.kids)
    requires SkeletonsOf(mid, m) == RegroupedAll(t.kids, max) && between == next + NewNodesOf(t.kids, max)
    requires SkeletonsOf(t'.kids, m + more) == Bounded(SkeletonsOf(mid, m), max)
    requires next' == between + NewBelow(|mid|, max)
    requires FanoutAll(t.kids, max) ==> mid == t.kids && m == {}
    requires |mid| <= max ==> t'.kids == mid && more == {}
    ensures Separate(t') && Wired(t') && Covers([t'], [t], m + more)
    ensures Numbered(m + more, next, next') && NoText(m + more)
    ensures FanoutAtMost(t', max) && (Branching(t) ==> Branching(t'))
    ensures SkeletonOf(t', m + more) == Regrouped(t, max) && next' == next + NewNodes(t, max)
    ensures FanoutAtMost(t, max) ==> t' == t && m + more == {}
  {
    hide SeparateAll, WiredAll, Wired, Separate, FanoutAll, BranchingAll, Numbered, Heads, Covers, SkeletonsOf,
         SkeletonOf, RegroupedAll, Regrouped, Bounded, NewNodesOf, NewNodes, NewBelow, FanoutAtMost, Branching, NoText,
         Attached;
    RootCovered(t', t, mid, m, more);
    NumberedUnion(m, more, next, between, next');
    NoTextUnion(m, more);
    BoundsOfKids(t', t, mid, max);
    RootRegrouped(t', t, mid, max, m, more);
  }

  /** A node whose children cover its former ones twice over. */
  lemma RootCovered(t': Shape, t: Shape, mid: seq<Shape>, m: set<PsiTreeNode>, more: set<PsiTreeNode>)
    requires Covers(mid, t.kids, m) && Covers(t'.kids, mid, more) && t'.node == t.node && Separate(t)
    requires t.node !in m + more && t'.node.children == Heads(t'.kids) && Attached(t'.kids, t'.node)
    requires SeparateAll(t'.kids) && WiredAll(t'.kids)
    ensures Separate(t') && Wired(t') && Covers([t'], [t], m + more)
  {
    hide SeparateAll, WiredAll, NodesOf, Wired, Separate, Nodes, HeadSet, Heads, Covers, Attached;
    CoversTrans(t'.kids, mid, t.kids, m, more);
    CoversRoot(t', t, m + more);
    RootParts(t');
    WiredParent(t'.node, t'.kids);
  }

  lemma RootRegrouped(t': Shape, t: Shape, mid: seq<Shape>, max: nat, m: set<PsiTreeNode>, more: set<PsiTreeNode>)
    requires max >= 2 && t'.node == t.node && t.node !in m + more && |mid| == |t.kids|
    requires SkeletonsOf(mid, m) == RegroupedAll(t.kids, max)
    requires SkeletonsOf(t'.kids, m + more) == Bounded(SkeletonsOf(mid, m), max)
    requires FanoutAll(t.kids, max) ==> mid == t.kids && m == {}
    requires |mid| <= max ==> t'.kids == mid && more == {}
    ensures SkeletonOf(t', m + more) == Regrouped(t, max)
    ensures NewNodes(t, max) == NewNodesOf(t.kids, max) + NewBelow(|mid|, max)
    ensures FanoutAtMost(t, max) ==> t' == t && m + more == {}
  {
    hide SkeletonsOf, RegroupedAll, Bounded, NewNodesOf, NewBelow;
    if FanoutAtMost(t, max) { assert FanoutAll(t.kids, max); }
  }

  lemma LeavesOne(t: Shape)
    ensures NodesOf([t]) == Nodes(t) && LeavesOf([t]) == Leaves(t)
  {
    assert LeavesOf([t]) == Leaves(t) + LeavesOf([t][1..]);
  }

  lemma RootParts(t: Shape)
    ensures Nodes(t) == NodesOf(t.kids) + {t.node}
    ensures Leaves(t) == if LeavesOf(t.kids) == [] then [t.node] else LeavesOf(t.kids)
    ensures Separate(t) <==> t.node !in NodesOf(t.kids) && SeparateAll(t.kids)
    ensures Separate(t) <==> SeparateAll([t])
  {
    if SeparateAll([t]) { assert Separate([t][0]); }
  }

  lemma CoversRoot(t': Shape, t: Shape, made: set<PsiTreeNode>)
    requires Covers(t'.kids, t.kids, made) && t'.node == t.node && Separate(t) && t.node !in made
    ensures Separate(t') && Covers([t'], [t], made)
  {
    hide SeparateAll, NodesOf, LeavesOf, Nodes, Leaves, Separate;
    RootParts(t);
    RootParts(t');
    LeavesOne(t);
    LeavesOne(t');
  }

  lemma BoundsOfKids(t': Shape, t: Shape, mid: seq<Shape>, max: nat)
    requires FanoutAll(t'.kids, max) && |t'.kids| <= max && |mid| == |t.kids|
    requires |t'.kids| == |mid| || |t'.kids| >= 2
    requires BranchingAll(t.kids) ==> BranchingAll(t'.kids)
    ensures FanoutAtMost(t', max)
    ensures Branching(t) ==> Branching(t')
  {
  }
}
