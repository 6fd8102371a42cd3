/** The tree that the compact parent array describes, as a shape over the input subtrees. */
module PsiMergeTree {
  import opened PsiForest
  import opened PsiNodes
  import opened PsiRebalance

  type Locals = map<nat, PsiTreeNode>

  ghost predicate Ready(f: Forest, local: Locals, ts: seq<Shape>) {
    && Valid(f) && |ts| == |f.rank|
    && forall id: nat {:trigger id in local} :: id < |f.owner| ==> id in local
  }

  ghost function Level(f: Forest, id: nat): nat
    requires id < |f.owner|
  {
    f.owner[id].level
  }

  lemma ParentLevel(f: Forest, id: nat)
    requires Valid(f) && id < |f.owner| && Parent(f, id) != -1
    ensures Level(f, Parent(f, id)) == Level(f, id) + 1
  {
    var s := f.owner[id];
    NodeParent(f, s.leaf, s.level);
    if s.level < f.rank[s.leaf] {
      assert f.owner[f.ids[s.leaf][s.level + 1]] == Slot(s.leaf, s.level + 1);
    } else {
      assert f.owner[f.ids[f.up[s.leaf]][s.level + 1]] == Slot(f.up[s.leaf], s.level + 1);
    }
  }

  lemma LevelZero(f: Forest, id: nat)
    requires Valid(f) && id < |f.owner|
    ensures Level(f, id) == 0 <==> id < |f.rank|
    ensures Level(f, id) == 0 ==> f.owner[id] == Slot(id, 0)
  {
    if id < |f.rank| { LeafSlot(f, id); }
  }

  // ---------- the shape below a tree node

  ghost function ShapeAt(f: Forest, local: Locals, ts: seq<Shape>, id: nat): Shape
    requires Ready(f, local, ts) && id < |f.owner|
    decreases Level(f, id), |f.owner| + 1
  {
    if Level(f, id) == 0 then LevelZero(f, id); ts[id]
    else Shape(local[id], KidShapes(f, local, ts, id, |f.owner|))
  }

  /** The shapes of the children of `id` whose number is below `m`, in increasing order. */
  ghost function KidShapes(f: Forest, local: Locals, ts: seq<Shape>, id: nat, m: nat): seq<Shape>
    requires Ready(f, local, ts) && id < |f.owner| && m <= |f.owner|
    decreases Level(f, id), m
  {
    if m == 0 then []
    else if Parent(f, m - 1) != id then KidShapes(f, local, ts, id, m - 1)
    else ParentLevel(f, m - 1); KidShapes(f, local, ts, id, m - 1) + [ShapeAt(f, local, ts, m - 1)]
  }

  /** The children of `id` numbered below `m`. */
  function Kids(tree: seq<int>, id: nat, m: nat): (k: seq<nat>)
    requires m <= |tree|
    ensures forall j :: 0 <= j < |k| ==> k[j] < m && tree[k[j]] == id
  {
    if m == 0 then [] else Kids(tree, id, m - 1) + if tree[m - 1] == id then [m - 1] else []
  }

  // ---------- the leaves below a tree node

  ghost function CutIds(f: Forest, id: nat): seq<nat>
    requires Valid(f) && id < |f.owner|
    decreases Level(f, id), |f.owner| + 1
  {
    if Level(f, id) == 0 then [id] else CutBelow(f, id, |f.owner|)
  }

  ghost function CutBelow(f: Forest, id: nat, m: nat): seq<nat>
    requires Valid(f) && id < |f.owner| && m <= |f.owner|
    decreases Level(f, id), m
  {
    if m == 0 then []
    else if Parent(f, m - 1) != id then CutBelow(f, id, m - 1)
    else ParentLevel(f, m - 1); CutBelow(f, id, m - 1) + CutIds(f, m - 1)
  }

  ghost function One(b: bool): nat { if b then 1 else 0 }

  /** Leaf `x` is listed once under `id` if it climbs to `id`, and not at all otherwise. */
  lemma {:induction false} CutCount(f: Forest, id: nat, x: nat)
    requires Valid(f) && id < |f.owner| && x < |f.rank|
    ensures x < |f.owner|
    ensures multiset(CutIds(f, id))[x] == One(Climb(f, x, Level(f, id)) == id)
    decreases Level(f, id), |f.owner| + 1
  {
    LeafSlot(f, x);
    if Level(f, id) == 0 {
      assert multiset([id])[x] == One(x == id);
    } else {
      CutBelowCount(f, id, |f.owner|, x);
    }
  }

  lemma {:induction false} CutBelowCount(f: Forest, id: nat, m: nat, x: nat)
    requires Valid(f) && id < |f.owner| && x < |f.rank| && m <= |f.owner| && Level(f, id) > 0
    ensures x < |f.owner|
    ensures multiset(CutBelow(f, id, m))[x] ==
            var a := Climb(f, x, Level(f, id) - 1); One(0 <= a < m && Parent(f, a) == id)
    decreases Level(f, id), m
  {
    hide Valid, Parent, Climb, CutIds, CutBelow, Level;
    LeafInside(f, x);
    if m == 0 {
      NothingBelow(f, id);
    } else {
      CutBelowCount(f, id, m - 1, x);
      if Parent(f, m - 1) == id {
        ParentLevel(f, m - 1);
        CutCount(f, m - 1, x);
      }
      CutStep(f, id, m, x);
    }
  }

  lemma LeafInside(f: Forest, x: nat)
    requires Valid(f) && x < |f.rank|
    ensures x < |f.owner|
  {
    LeafSlot(f, x);
  }

  lemma NothingBelow(f: Forest, id: nat)
    requires Valid(f) && id < |f.owner|
    ensures CutBelow(f, id, 0) == []
  {
    hide Valid, Parent;
  }

  lemma CutStep(f: Forest, id: nat, m: nat, x: nat)
    requires Valid(f) && id < |f.owner| && x < |f.owner| && 0 < m <= |f.owner| && Level(f, id) > 0
    requires multiset(CutBelow(f, id, m - 1))[x] ==
             var a := Climb(f, x, Level(f, id) - 1); One(0 <= a < m - 1 && Parent(f, a) == id)
    requires Parent(f, m - 1) == id ==>
               Level(f, id) == Level(f, m - 1) + 1
               && multiset(CutIds(f, m - 1))[x] == One(Climb(f, x, Level(f, m - 1)) == m - 1)
    ensures multiset(CutBelow(f, id, m))[x] ==
            var a := Climb(f, x, Level(f, id) - 1); One(0 <= a < m && Parent(f, a) == id)
  {
    hide Labelled, Shaped, Parent, Climb, CutIds, CutBelow, Level;
    CutBelowStep(f, id, m);
    CountSum(CutBelow(f, id, m - 1), CutIds(f, m - 1), x);
  }

  lemma CountSum(a: seq<nat>, b: seq<nat>, x: nat)
    ensures multiset(a + b)[x] == multiset(a)[x] + multiset(b)[x]
  {
  }

  lemma CutBelowStep(f: Forest, id: nat, m: nat)
    requires Valid(f) && id < |f.owner| && m <= |f.owner|
    ensures m == 0 ==> CutBelow(f, id, m) == []
    ensures m > 0 && Parent(f, m - 1) != id ==> CutBelow(f, id, m) == CutBelow(f, id, m - 1)
    ensures m > 0 && Parent(f, m - 1) == id ==> CutBelow(f, id, m) == CutBelow(f, id, m - 1) + CutIds(f, m - 1)
  {
    hide Labelled, Shaped, Parent, CutIds;
  }

  /** The input subtrees in the order they appear below `id`. */
  ghost function Sel(ts: seq<Shape>, order: seq<nat>): (s: seq<Shape>)
    requires forall k :: 0 <= k < |order| ==> order[k] < |ts|
    ensures |s| == |order| && forall k :: 0 <= k < |order| ==> s[k] == ts[order[k]]
  {
    seq(|order|, k requires 0 <= k < |order| => ts[order[k]])
  }

  ghost predicate LeafList(f: Forest, order: seq<nat>) {
    forall k :: 0 <= k < |order| ==> order[k] < |f.rank|
  }

  lemma {:induction false} CutAreLeaves(f: Forest, id: nat)
    requires Valid(f) && id < |f.owner|
    ensures LeafList(f, CutIds(f, id))
    decreases Level(f, id), |f.owner| + 1
  {
    LevelZero(f, id);
    if Level(f, id) > 0 { CutBelowAreLeaves(f, id, |f.owner|); }
  }

  lemma {:induction false} CutBelowAreLeaves(f: Forest, id: nat, m: nat)
    requires Valid(f) && id < |f.owner| && m <= |f.owner|
    ensures LeafList(f, CutBelow(f, id, m))
    decreases Level(f, id), m
  {
    hide Labelled, Shaped;
    if m == 0 {
    } else {
      CutBelowAreLeaves(f, id, m - 1);
      if Parent(f, m - 1) == id {
        ParentLevel(f, m - 1);
        CutAreLeaves(f, m - 1);
      }
    }
  }

  /** The input subtrees that `t` hangs together with the nodes `made`, left to right. */
  ghost function Frontier(t: Shape, made: set<PsiTreeNode>): seq<Shape>
    decreases t, 1
  {
    if t.node in made then FrontierOf(t.kids, made) else [t]
  }

  ghost function FrontierOf(ts: seq<Shape>, made: set<PsiTreeNode>): seq<Shape>
    decreases ts, 0
  {
    if ts == [] then [] else FrontierOf(ts[..|ts| - 1], made) + Frontier(ts[|ts| - 1], made)
  }

  /** New nodes are named by the tree ids past the leaves, each with its own object. */
  ghost predicate FreshLocals(f: Forest, local: Locals, ts: seq<Shape>, made: set<PsiTreeNode>) {
    && Ready(f, local, ts)
    && made !! NodesOf(ts)
    && (forall id: nat {:trigger local[id]} :: id < |f.rank| && id < |f.owner| ==> local[id] == ts[id].node)
    && (forall id: nat {:trigger local[id]} :: |f.rank| <= id < |f.owner| ==> local[id] in made)
    && (forall c: nat, d: nat {:trigger local[c], local[d]} ::
          |f.rank| <= c < |f.owner| && |f.rank| <= d < |f.owner| && c != d ==> local[c] != local[d])
    && (forall x :: x in made ==> exists id: nat :: |f.rank| <= id < |f.owner| && local[id] == x)
  }

  lemma {:induction false} ShapeFrontier(f: Forest, local: Locals, ts: seq<Shape>, made: set<PsiTreeNode>, id: nat)
    requires FreshLocals(f, local, ts, made) && id < |f.owner|
    ensures LeafList(f, CutIds(f, id))
    ensures Frontier(ShapeAt(f, local, ts, id), made) == Sel(ts, CutIds(f, id))
    decreases Level(f, id), |f.owner| + 1
  {
    CutAreLeaves(f, id);
    LevelZero(f, id);
    if Level(f, id) == 0 {
      assert ts[id] in ts && ts[id].node in Nodes(ts[id]);
    } else {
      KidFrontier(f, local, ts, made, id, |f.owner|);
      assert local[id] in made;
    }
  }

  lemma {:induction false} KidFrontier(f: Forest, local: Locals, ts: seq<Shape>, made: set<PsiTreeNode>, id: nat,
                                       m: nat)
    requires Valid(f) && Ready(f, local, ts) && FreshLocals(f, local, ts, made) && id < |f.owner| && m <= |f.owner|
    ensures LeafList(f, CutBelow(f, id, m))
    ensures FrontierOf(KidShapes(f, local, ts, id, m), made) == Sel(ts, CutBelow(f, id, m))
    decreases Level(f, id), m
  {
    hide Labelled, Shaped, FreshLocals;
    CutBelowAreLeaves(f, id, m);
    if m == 0 {
    } else {
      KidFrontier(f, local, ts, made, id, m - 1);
      if Parent(f, m - 1) == id {
        ParentLevel(f, m - 1);
        ShapeFrontier(f, local, ts, made, m - 1);
        var before := KidShapes(f, local, ts, id, m - 1);
        assert (before + [ShapeAt(f, local, ts, m - 1)])[..|before|] == before;
      }
    }
  }

  // ---------- which tree nodes lie below a node

  ghost function Under(f: Forest, id: nat): set<nat>
    requires Valid(f) && id < |f.owner|
  {
    set c | 0 <= c < |f.owner| && Level(f, c) <= Level(f, id) && Climb(f, c, Level(f, id) - Level(f, c)) == id
  }

  ghost function UnderKids(f: Forest, id: nat, m: nat): set<nat>
    requires Valid(f) && id < |f.owner| && m <= |f.owner|
  {
    set c | 0 <= c < |f.owner| && Level(f, c) < Level(f, id) && ClimbsToKid(f, c, id, m)
  }

  ghost predicate ClimbsToKid(f: Forest, c: nat, id: nat, m: nat)
    requires Valid(f) && id < |f.owner| && c < |f.owner| && Level(f, c) < Level(f, id)
  {
    var a := Climb(f, c, Level(f, id) - 1 - Level(f, c));
    0 <= a < m && Parent(f, a) == id
  }

  lemma UnderSplit(f: Forest, id: nat)
    requires Valid(f) && id < |f.owner|
    ensures Under(f, id) == {id} + UnderKids(f, id, |f.owner|)
    ensures id !in UnderKids(f, id, |f.owner|)
  {
    hide Labelled, Shaped;
    forall c | 0 <= c < |f.owner| ensures c in Under(f, id) <==> c == id || c in UnderKids(f, id, |f.owner|) {
      if Level(f, c) == Level(f, id) { assert Climb(f, c, 0) == c; }
    }
  }

  lemma UnderStep(f: Forest, id: nat, m: nat)
    requires Valid(f) && id < |f.owner| && 0 < m <= |f.owner|
    ensures UnderKids(f, id, m) == UnderKids(f, id, m - 1) + if Parent(f, m - 1) == id then Under(f, m - 1) else {}
    ensures Parent(f, m - 1) == id ==> UnderKids(f, id, m - 1) !! Under(f, m - 1)
  {
    hide Labelled, Shaped;
    if Parent(f, m - 1) == id {
      ParentLevel(f, m - 1);
      assert forall c :: 0 <= c < |f.owner| && Level(f, c) < Level(f, id) ==>
          (c in Under(f, m - 1) <==> Climb(f, c, Level(f, id) - 1 - Level(f, c)) == m - 1);
    }
  }

  /** The node objects that tree node `c` stands for: an input subtree or one new node. */
  ghost function Own(f: Forest, local: Locals, ts: seq<Shape>, c: nat): set<PsiTreeNode>
    requires Ready(f, local, ts) && c < |f.owner|
  {
    if c < |f.rank| then Nodes(ts[c]) else {local[c]}
  }

  ghost function Region(f: Forest, local: Locals, ts: seq<Shape>, s: set<nat>): set<PsiTreeNode>
    requires Ready(f, local, ts) && forall c :: c in s ==> c < |f.owner|
  {
    set c, x | c in s && x in Own(f, local, ts, c) :: x
  }

  lemma OwnDisjoint(f: Forest, local: Locals, ts: seq<Shape>, made: set<PsiTreeNode>, c: nat, d: nat)
    requires FreshLocals(f, local, ts, made) && SeparateAll(ts) && c < |f.owner| && d < |f.owner| && c != d
    ensures Own(f, local, ts, c) !! Own(f, local, ts, d)
  {
    var n := |f.rank|;
    if c < n && d < n {
      if c < d { assert Nodes(ts[c]) !! Nodes(ts[d]); } else { assert Nodes(ts[d]) !! Nodes(ts[c]); }
    } else {
      if c < n { assert ts[c] in ts && Nodes(ts[c]) <= NodesOf(ts) && local[d] in made; }
      if d < n { assert ts[d] in ts && Nodes(ts[d]) <= NodesOf(ts) && local[c] in made; }
    }
  }

  lemma RegionDisjoint(f: Forest, local: Locals, ts: seq<Shape>, made: set<PsiTreeNode>, s: set<nat>, t: set<nat>)
    requires FreshLocals(f, local, ts, made) && SeparateAll(ts) && s !! t
    requires (forall c :: c in s ==> c < |f.owner|) && (forall c :: c in t ==> c < |f.owner|)
    ensures Region(f, local, ts, s) !! Region(f, local, ts, t)
    ensures Region(f, local, ts, s + t) == Region(f, local, ts, s) + Region(f, local, ts, t)
  {
    forall c, d | c in s && d in t ensures Own(f, local, ts, c) !! Own(f, local, ts, d) {
      OwnDisjoint(f, local, ts, made, c, d);
    }
  }

  /** The shape below `id` repeats no node and consists of exactly the nodes `id` stands over. */
  lemma {:induction false} ShapeNodes(f: Forest, local: Locals, ts: seq<Shape>, made: set<PsiTreeNode>, id: nat)
    requires Ready(f, local, ts) && FreshLocals(f, local, ts, made) && SeparateAll(ts) && id < |f.owner|
    ensures Separate(ShapeAt(f, local, ts, id))
    ensures Nodes(ShapeAt(f, local, ts, id)) == Region(f, local, ts, Under(f, id))
    decreases Level(f, id), |f.owner| + 1
  {
    hide Labelled, Shaped, FreshLocals, SeparateAll, Separate, Nodes, NodesOf, Under, UnderKids;
    LevelZero(f, id);
    UnderSplit(f, id);
    RegionOne(f, local, ts, id);
    UnderBounds(f, id, |f.owner|);
    if Level(f, id) == 0 {
      NoneUnder(f, id);
      SeparateAt(ts, id);
    } else {
      KidNodes(f, local, ts, made, id, |f.owner|);
      RegionDisjoint(f, local, ts, made, {id}, UnderKids(f, id, |f.owner|));
      RootParts(ShapeAt(f, local, ts, id));
    }
  }

  lemma SeparateAt(ts: seq<Shape>, k: nat)
    requires SeparateAll(ts) && k < |ts|
    ensures Separate(ts[k])
  {
  }

  lemma NoneUnder(f: Forest, id: nat)
    requires Valid(f) && id < |f.owner| && Level(f, id) == 0
    ensures UnderKids(f, id, |f.owner|) == {}
  {
  }

  lemma UnderBounds(f: Forest, id: nat, m: nat)
    requires Valid(f) && id < |f.owner| && m <= |f.owner|
    ensures forall c :: c in UnderKids(f, id, m) ==> c < |f.owner|
    ensures forall c :: c in Under(f, id) ==> c < |f.owner|
  {
  }

  lemma RegionOne(f: Forest, local: Locals, ts: seq<Shape>, c: nat)
    requires Ready(f, local, ts) && c < |f.owner|
    ensures Region(f, local, ts, {c}) == Own(f, local, ts, c)
  {
  }

  lemma {:induction false} KidNodes(f: Forest, local: Locals, ts: seq<Shape>, made: set<PsiTreeNode>, id: nat, m: nat)
    requires Ready(f, local, ts) && FreshLocals(f, local, ts, made) && SeparateAll(ts) && id < |f.owner|
    requires m <= |f.owner|
    ensures SeparateAll(KidShapes(f, local, ts, id, m))
    ensures forall c :: c in UnderKids(f, id, m) ==> c < |f.owner|
    ensures NodesOf(KidShapes(f, local, ts, id, m)) == Region(f, local, ts, UnderKids(f, id, m))
    decreases Level(f, id), m
  {
    hide Labelled, Shaped, FreshLocals, SeparateAll, Separate, Nodes, NodesOf, Under, UnderKids, ShapeAt;
    UnderBounds(f, id, m);
    if m == 0 {
      NoKids(f, local, ts, id);
    } else {
      KidNodes(f, local, ts, made, id, m - 1);
      UnderStep(f, id, m);
      if Parent(f, m - 1) == id {
        ParentLevel(f, m - 1);
        ShapeNodes(f, local, ts, made, m - 1);
        UnderBounds(f, m - 1, m);
        var before, s := KidShapes(f, local, ts, id, m - 1), ShapeAt(f, local, ts, m - 1);
        RegionDisjoint(f, local, ts, made, UnderKids(f, id, m - 1), Under(f, m - 1));
        RootParts(s);
        LeavesOne(s);
        SeparateConcat(before, [s]);
        NodesConcat(before, [s]);
      }
    }
  }

  lemma NoKids(f: Forest, local: Locals, ts: seq<Shape>, id: nat)
    requires Ready(f, local, ts) && id < |f.owner|
    ensures SeparateAll([]) && NodesOf([]) == {} && UnderKids(f, id, 0) == {}
  {
  }

  // ---------- the whole tree

  lemma {:induction false} ClimbTwice(f: Forest, id: nat, j: nat, k: nat)
    requires Valid(f) && id < |f.owner| && Climb(f, id, j) != -1
    ensures Climb(f, Climb(f, id, j), k) == Climb(f, id, j + k)
  {
    hide Labelled, Shaped, Parent;
    if k == 0 {
    } else {
      ClimbTwice(f, id, j, k - 1);
    }
  }

  /** Climbing from a leaf to its own level-`k` node ends there. */
  lemma ClimbOwn(f: Forest, x: nat, k: nat)
    requires Valid(f) && x < |f.rank| && k <= f.rank[x]
    ensures x < |f.owner| && Climb(f, x, k) == f.ids[x][k]
  {
    assert f.rank[x] <= f.rank[Root(f, x)];
    ClimbFromLeaf(f, x, k);
  }

  /** Every node of a one-root forest lies under the root's top node. */
  lemma AllUnderTop(f: Forest, r: nat, c: nat)
    requires Valid(f) && r < |f.rank| && c < |f.owner| && forall x :: 0 <= x < |f.rank| ==> Root(f, x) == r
    ensures c in Under(f, Top(f, r))
  {
    hide Climb, Path, FirstAbove;
    var s := f.owner[c];
    assert f.ids[s.leaf][s.level] == c;
    assert Root(f, s.leaf) == r;
    ClimbOwn(f, s.leaf, s.level);
    TopReached(f, s.leaf);
    ClimbTwice(f, s.leaf, s.level, f.rank[r] - s.level);
  }

  lemma TopReached(f: Forest, x: nat)
    requires Valid(f) && x < |f.rank|
    ensures x < |f.owner| && Climb(f, x, f.rank[Root(f, x)]) == Top(f, Root(f, x))
  {
    hide Climb, Path, Labelled;
    ClimbFromLeaf(f, x, f.rank[Root(f, x)]);
  }

  /** The tree of a one-root forest: every input subtree exactly once, no node twice, and no
      nodes beyond the inputs and the new ones. */
  lemma WholeTree(f: Forest, local: Locals, ts: seq<Shape>, made: set<PsiTreeNode>, r: nat)
    requires Valid(f) && Ready(f, local, ts) && FreshLocals(f, local, ts, made) && SeparateAll(ts) && r < |f.rank|
    requires forall x :: 0 <= x < |f.rank| ==> Root(f, x) == r
    ensures var t := ShapeAt(f, local, ts, Top(f, r));
            && Separate(t) && Nodes(t) == NodesOf(ts) + made
            && multiset(Frontier(t, made)) == multiset(ts)
  {
    hide Labelled, Shaped, Root, FreshLocals, SeparateAll, Separate, Nodes, NodesOf, CutIds, Frontier, Climb, Under,
         Region, ShapeAt;
    var id := Top(f, r);
    ShapeNodes(f, local, ts, made, id);
    ShapeFrontier(f, local, ts, made, id);
    EveryNode(f, r);
    AllOwned(f, local, ts, made, Under(f, id));
    EveryLeafOnce(f, r);
    SelPermutes(ts, CutIds(f, id));
  }

  lemma EveryNode(f: Forest, r: nat)
    requires Valid(f) && r < |f.rank| && forall x :: 0 <= x < |f.rank| ==> Root(f, x) == r
    ensures forall c :: c in Under(f, Top(f, r)) <==> 0 <= c < |f.owner|
  {
    forall c | 0 <= c < |f.owner| ensures c in Under(f, Top(f, r)) { AllUnderTop(f, r, c); }
  }

  lemma EveryLeafOnce(f: Forest, r: nat)
    requires Valid(f) && r < |f.rank| && forall x :: 0 <= x < |f.rank| ==> Root(f, x) == r
    ensures forall x :: 0 <= x < |f.rank| ==> multiset(CutIds(f, Top(f, r)))[x] == 1
  {
    forall x | 0 <= x < |f.rank| ensures multiset(CutIds(f, Top(f, r)))[x] == 1 {
      hide Labelled, Shaped, CutIds;
      CutCount(f, Top(f, r), x);
      TopReached(f, x);
    }
  }

  lemma AllOwned(f: Forest, local: Locals, ts: seq<Shape>, made: set<PsiTreeNode>, s: set<nat>)
    requires FreshLocals(f, local, ts, made) && forall c :: c in s <==> 0 <= c < |f.owner|
    ensures Region(f, local, ts, s) == NodesOf(ts) + made
  {
    forall x | x in NodesOf(ts) ensures x in Region(f, local, ts, s) {
      var k :| 0 <= k < |ts| && x in Nodes(ts[k]);
      LeafSlot(f, k);
      assert x in Own(f, local, ts, k);
    }
    forall x | x in made ensures x in Region(f, local, ts, s) {
      var id: nat :| |f.rank| <= id < |f.owner| && local[id] == x;
      assert x in Own(f, local, ts, id);
    }
  }

  lemma RemoveOne(order: seq<nat>, k: nat)
    requires k < |order|
    ensures var rest := order[..k] + order[k + 1..];
            multiset(rest) == multiset(order)[order[k] := multiset(order)[order[k]] - 1]
  {
    assert order == order[..k] + [order[k]] + order[k + 1..];
  }

  lemma RemoveLast(order: seq<nat>, k: nat, last: nat)
    requires k < |order| && order[k] == last && multiset(order)[last] == 1
    requires forall j :: 0 <= j < |order| ==> order[j] <= last
    ensures var rest := order[..k] + order[k + 1..];
            && (forall j :: 0 <= j < |rest| ==> rest[j] < last)
            && (forall x :: x < last ==> multiset(rest)[x] == multiset(order)[x])
            && (forall j :: 0 <= j < |order| && j != k ==> order[j] < last)
  {
    RemoveOne(order, k);
    var rest := order[..k] + order[k + 1..];
    forall j | 0 <= j < |rest| ensures rest[j] < last {
      assert rest[j] in multiset(rest);
      assert rest[j] == order[if j < k then j else j + 1];
    }
    forall j | 0 <= j < |order| && j != k ensures order[j] < last {
      assert order[j] == rest[if j < k then j else j - 1];
    }
  }

  lemma SelConcat(ts: seq<Shape>, a: seq<nat>, b: seq<nat>)
    requires forall k :: 0 <= k < |a| ==> a[k] < |ts|
    requires forall k :: 0 <= k < |b| ==> b[k] < |ts|
    ensures Sel(ts, a + b) == Sel(ts, a) + Sel(ts, b)
  {
  }

  lemma SelRemove(ts: seq<Shape>, order: seq<nat>, k: nat)
    requires k < |order| && forall j :: 0 <= j < |order| ==> order[j] < |ts|
    ensures multiset(Sel(ts, order)) == multiset(Sel(ts, order[..k] + order[k + 1..])) + multiset([ts[order[k]]])
  {
    var a, b, c := order[..k], order[k + 1..], [order[k]];
    assert order == (a + c) + b;
    SelConcat(ts, a + c, b);
    SelConcat(ts, a, c);
    SelConcat(ts, a, b);
    assert Sel(ts, c) == [ts[order[k]]];
  }

  /** Listing each index once selects a permutation. */
  lemma {:induction false} SelPermutes(ts: seq<Shape>, order: seq<nat>)
    requires forall k :: 0 <= k < |order| ==> order[k] < |ts|
    requires forall x :: 0 <= x < |ts| ==> multiset(order)[x] == 1
    ensures multiset(Sel(ts, order)) == multiset(ts)
    decreases |ts|
  {
    if ts == [] {
      assert order == [];
    } else {
      var last: nat := |ts| - 1;
      assert multiset(order)[last] == 1;
      var k :| 0 <= k < |order| && order[k] == last;
      var rest := order[..k] + order[k + 1..];
      RemoveLast(order, k, last);
      SelRemove(ts, order, k);
      assert Sel(ts, rest) == Sel(ts[..last], rest);
      assert ts == ts[..last] + [ts[last]];
      SelPermutes(ts[..last], rest);
    }
  }

  // ---------- leaves and branching of the whole tree

  ghost predicate TwoKids(f: Forest)
    requires Valid(f)
  {
    forall id {:trigger Level(f, id)} :: 0 <= id < |f.owner| && Level(f, id) > 0 ==>
      exists c, d :: 0 <= c < d < |f.owner| && Parent(f, c) == id && Parent(f, d) == id
  }

  lemma {:induction false} KidCount(f: Forest, local: Locals, ts: seq<Shape>, id: nat, m: nat, c: nat, d: nat)
    requires Ready(f, local, ts) && id < |f.owner| && c < d < |f.owner| && m <= |f.owner|
    requires Parent(f, c) == id && Parent(f, d) == id
    ensures |KidShapes(f, local, ts, id, m)| >= One(c < m) + One(d < m)
    decreases m
  {
    hide Labelled, Shaped, ShapeAt;
    if m == 0 {
    } else {
      KidCount(f, local, ts, id, m - 1, c, d);
      if Parent(f, m - 1) == id { ParentLevel(f, m - 1); }
    }
  }

  lemma {:induction false} ShapeLeaves(f: Forest, local: Locals, ts: seq<Shape>, id: nat)
    requires Ready(f, local, ts) && TwoKids(f) && id < |f.owner|
    ensures LeafList(f, CutIds(f, id))
    ensures Leaves(ShapeAt(f, local, ts, id)) == LeavesOf(Sel(ts, CutIds(f, id)))
    ensures BranchingAll(ts) ==> Branching(ShapeAt(f, local, ts, id))
    decreases Level(f, id), |f.owner| + 1
  {
    CutAreLeaves(f, id);
    LevelZero(f, id);
    if Level(f, id) == 0 {
      assert Sel(ts, [id]) == [ts[id]];
      LeavesOne(ts[id]);
    } else {
      var c, d :| 0 <= c < d < |f.owner| && Parent(f, c) == id && Parent(f, d) == id;
      KidCount(f, local, ts, id, |f.owner|, c, d);
      KidLeaves(f, local, ts, id, |f.owner|);
    }
  }

  lemma {:induction false} KidLeaves(f: Forest, local: Locals, ts: seq<Shape>, id: nat, m: nat)
    requires Ready(f, local, ts) && TwoKids(f) && id < |f.owner| && m <= |f.owner|
    ensures LeafList(f, CutBelow(f, id, m))
    ensures LeavesOf(KidShapes(f, local, ts, id, m)) == LeavesOf(Sel(ts, CutBelow(f, id, m)))
    ensures BranchingAll(ts) ==> BranchingAll(KidShapes(f, local, ts, id, m))
    decreases Level(f, id), m
  {
    hide Labelled, Shaped, TwoKids, LeavesOf, Leaves, ShapeAt, Branching;
    CutBelowAreLeaves(f, id, m);
    if m == 0 {
      assert Sel(ts, []) == [];
    } else {
      KidLeaves(f, local, ts, id, m - 1);
      if Parent(f, m - 1) == id {
        ParentLevel(f, m - 1);
        ShapeLeaves(f, local, ts, m - 1);
        LeavesOne(ShapeAt(f, local, ts, m - 1));
        LeavesConcat(KidShapes(f, local, ts, id, m - 1), [ShapeAt(f, local, ts, m - 1)]);
        SelConcat(ts, CutBelow(f, id, m - 1), CutIds(f, m - 1));
        LeavesConcat(Sel(ts, CutBelow(f, id, m - 1)), Sel(ts, CutIds(f, m - 1)));
      }
    }
  }

  // ---------- the shape in the heap

  /** The children of tree node `id`, in increasing order. */
  ghost function KidIds(f: Forest, id: nat, m: nat): (k: seq<nat>)
    requires Valid(f) && m <= |f.owner|
    ensures forall j :: 0 <= j < |k| ==> k[j] < m && Parent(f, k[j]) == id
  {
    if m == 0 then [] else KidIds(f, id, m - 1) + if Parent(f, m - 1) == id then [m - 1] else []
  }

  function Objects(local: Locals, ids: seq<nat>): (s: seq<PsiTreeNode>)
    requires forall k :: 0 <= k < |ids| ==> ids[k] in local
    ensures |s| == |ids| && forall k :: 0 <= k < |ids| ==> s[k] == local[ids[k]]
  {
    seq(|ids|, k requires 0 <= k < |ids| => local[ids[k]])
  }

  /** Children lists and parent links of the node objects follow the forest. */
  ghost predicate Hooked(f: Forest, local: Locals, ts: seq<Shape>)
    requires Ready(f, local, ts)
    reads local.Values`children, local.Values`parent
  {
    && (forall id: nat {:trigger local[id]} :: |f.rank| <= id < |f.owner| ==>
          local[id].children == Objects(local, KidIds(f, id, |f.owner|)))
    && (forall c: nat {:trigger local[c]} :: c < |f.owner| && Parent(f, c) != -1 ==>
          local[c].parent == local[Parent(f, c)])
  }

  lemma {:induction false} KidHeads(f: Forest, local: Locals, ts: seq<Shape>, made: set<PsiTreeNode>, id: nat, m: nat)
    requires Ready(f, local, ts) && FreshLocals(f, local, ts, made) && id < |f.owner| && m <= |f.owner|
    ensures Heads(KidShapes(f, local, ts, id, m)) == Objects(local, KidIds(f, id, m))
    decreases m
  {
    hide Labelled, Shaped, FreshLocals, ShapeAt, Heads, Parent;
    EmptyHeads();
    if m == 0 {
    } else {
      KidHeads(f, local, ts, made, id, m - 1);
      if Parent(f, m - 1) == id {
        ParentLevel(f, m - 1);
        ShapeHead(f, local, ts, made, m - 1);
        HeadsSnoc(KidShapes(f, local, ts, id, m - 1), ShapeAt(f, local, ts, m - 1));
      }
    }
  }

  lemma {:induction false} ShapeWired(f: Forest, local: Locals, ts: seq<Shape>, made: set<PsiTreeNode>, id: nat)
    requires Ready(f, local, ts) && FreshLocals(f, local, ts, made) && SeparateAll(ts) && WiredAll(ts)
    requires Hooked(f, local, ts) && id < |f.owner|
    ensures Wired(ShapeAt(f, local, ts, id))
    decreases Level(f, id), |f.owner| + 1
  {
    hide Labelled, Shaped, SeparateAll, Separate, Nodes, NodesOf, Wired, KidShapes, Heads, FreshLocals, Attached,
         WiredAll;
    LevelZero(f, id);
    if Level(f, id) == 0 {
      WiredPick(ts, id);
    } else {
      var kids := KidShapes(f, local, ts, id, |f.owner|);
      KidNodes(f, local, ts, made, id, |f.owner|);
      KidsWired(f, local, ts, made, id, |f.owner|);
      KidHeads(f, local, ts, made, id, |f.owner|);
      ShapeNodes(f, local, ts, made, id);
      RootParts(ShapeAt(f, local, ts, id));
      WiredParent(local[id], kids);
    }
  }

  lemma WiredPick(ts: seq<Shape>, k: nat)
    requires SeparateAll(ts) && WiredAll(ts) && k < |ts|
    ensures Wired(ts[k])
  {
  }

  lemma {:induction false} KidsWired(f: Forest, local: Locals, ts: seq<Shape>, made: set<PsiTreeNode>, id: nat, m: nat)
    requires Ready(f, local, ts) && FreshLocals(f, local, ts, made) && SeparateAll(ts) && WiredAll(ts)
    requires Hooked(f, local, ts) && id < |f.owner| && m <= |f.owner|
    ensures SeparateAll(KidShapes(f, local, ts, id, m)) && WiredAll(KidShapes(f, local, ts, id, m))
    ensures id in local && Attached(KidShapes(f, local, ts, id, m), local[id])
    decreases Level(f, id), m
  {
    hide Labelled, Shaped, SeparateAll, Separate, Nodes, NodesOf, Wired, Heads, Attached, WiredAll, ShapeAt, Parent;
    KidNodes(f, local, ts, made, id, m);
    if m == 0 {
      EmptyCover(local[id], 0, 2);
    } else {
      KidsWired(f, local, ts, made, id, m - 1);
      if Parent(f, m - 1) == id {
        ParentLevel(f, m - 1);
        var before, s := KidShapes(f, local, ts, id, m - 1), ShapeAt(f, local, ts, m - 1);
        ShapeWired(f, local, ts, made, m - 1);
        ShapeNodes(f, local, ts, made, m - 1);
        ShapeHead(f, local, ts, made, m - 1);
        WiredSingle(s);
        WiredConcat(before, [s]);
        AttachedSingle(s, local[id]);
        AttachedConcat(before, [s], local[id]);
      }
    }
  }

  lemma EmptyHeads()
    ensures Heads([]) == []
  {
  }

  lemma ShapeHead(f: Forest, local: Locals, ts: seq<Shape>, made: set<PsiTreeNode>, id: nat)
    requires FreshLocals(f, local, ts, made) && id < |f.owner|
    ensures id in local && ShapeAt(f, local, ts, id).node == local[id]
  {
    LevelZero(f, id);
  }
}
