/** The mathematical content of `_PsiUnionFind`: which leaf hangs under which, at
    which rank, and which tree node each leaf owns at each level.  The class that
    updates lists and arrays in place is proved against these functions. */
module PsiForest {

  /** The tree node that leaf `leaf` owns at height `level`. */
  datatype Slot = Slot(leaf: nat, level: nat)

  /** `up[x] == x` marks a root.  `ids[x][k]` is the tree node of `x` at level `k`,
      and `owner` is its inverse, one entry for each tree node made so far. */
  datatype Forest = Forest(rank: seq<nat>, up: seq<nat>, ids: seq<seq<nat>>, owner: seq<Slot>)

  ghost predicate Shaped(f: Forest) {
    && |f.up| == |f.rank|
    && (forall x {:trigger f.up[x]} :: 0 <= x < |f.up| ==>
          f.up[x] < |f.up| && (f.up[x] != x ==> f.rank[x] < f.rank[f.up[x]]))
  }

  ghost predicate Labelled(f: Forest) {
    && |f.ids| == |f.rank|
    && (forall x {:trigger f.ids[x]} :: 0 <= x < |f.ids| ==> |f.ids[x]| == f.rank[x] + 1 && f.ids[x][0] == x)
    && (forall x, k {:trigger f.ids[x][k]} :: 0 <= x < |f.ids| && 0 <= k < |f.ids[x]| ==>
          f.ids[x][k] < |f.owner| && f.owner[f.ids[x][k]] == Slot(x, k))
    && (forall id {:trigger f.owner[id]} :: 0 <= id < |f.owner| ==>
          var s := f.owner[id];
          s.leaf < |f.ids| && s.level < |f.ids[s.leaf]| && f.ids[s.leaf][s.level] == id)
  }

  ghost predicate Valid(f: Forest) {
    Shaped(f) && Labelled(f)
  }

  function Init(n: nat): (f: Forest)
    ensures |f.rank| == n && |f.owner| == n
  {
    Forest(seq(n, _ => 0), seq(n, x => x), seq(n, x => [x]), seq(n, (x: nat) => Slot(x, 0)))
  }

  lemma InitValid(n: nat)
    ensures Valid(Init(n))
  {
  }

  // ---------- ancestor paths

  function MaxRank(r: seq<nat>): (m: nat)
    ensures forall k :: 0 <= k < |r| ==> r[k] <= m
  {
    if r == [] then 0 else
    var m := MaxRank(r[..|r| - 1]);
    if r[|r| - 1] > m then r[|r| - 1] else m
  }

  /** The ancestors of `x`, from `x` itself to its root. */
  ghost function Path(f: Forest, x: nat): (p: seq<nat>)
    requires Shaped(f) && x < |f.rank|
    ensures p != [] && p[0] == x
    decreases MaxRank(f.rank) - f.rank[x]
  {
    if f.up[x] == x then [x] else [x] + Path(f, f.up[x])
  }

  ghost function Root(f: Forest, x: nat): (r: nat)
    requires Shaped(f) && x < |f.rank|
    ensures r < |f.rank| && f.up[r] == r && f.rank[x] <= f.rank[r]
    ensures r != x ==> f.rank[x] < f.rank[r]
    decreases MaxRank(f.rank) - f.rank[x]
  {
    if f.up[x] == x then x else Root(f, f.up[x])
  }

  /** The first ancestor of `x` whose rank exceeds `r`, or its root if none does. */
  ghost function FirstAbove(f: Forest, x: nat, r: int): (y: nat)
    requires Shaped(f) && x < |f.rank|
    ensures y < |f.rank| && Root(f, y) == Root(f, x)
    ensures f.rank[Root(f, x)] > r ==> f.rank[y] > r
    decreases MaxRank(f.rank) - f.rank[x]
  {
    if f.rank[x] > r || f.up[x] == x then x else FirstAbove(f, f.up[x], r)
  }

  /** Ancestor paths climb strictly in rank and end in the root. */
  lemma {:induction false} PathClimbs(f: Forest, x: nat)
    requires Shaped(f) && x < |f.rank|
    ensures var p := Path(f, x);
            && (forall k :: 0 <= k < |p| ==> p[k] < |f.rank|)
            && (forall k, m :: 0 <= k < m < |p| ==> f.rank[p[k]] < f.rank[p[m]])
            && p[|p| - 1] == Root(f, x)
    decreases MaxRank(f.rank) - f.rank[x]
  {
    if f.up[x] != x {
      PathClimbs(f, f.up[x]);
      var p, q := Path(f, x), Path(f, f.up[x]);
      assert forall k :: 1 <= k < |p| ==> p[k] == q[k - 1];
      forall k | 0 <= k < |p| ensures p[k] < |f.rank| {
        if k > 0 { assert p[k] == q[k - 1]; }
      }
      forall k, m | 0 <= k < m < |p| ensures f.rank[p[k]] < f.rank[p[m]] {
        assert p[m] == q[m - 1];
        if k == 0 { assert f.rank[q[0]] <= f.rank[q[m - 1]]; } else { assert p[k] == q[k - 1]; }
      }
    }
  }

  /** A suffix of an ancestor path is itself an ancestor path. */
  lemma {:induction false} PathSuffix(f: Forest, x: nat, k: nat)
    requires Shaped(f) && x < |f.rank| && k < |Path(f, x)|
    ensures Path(f, x)[k] < |f.rank|
    ensures Path(f, x)[k..] == Path(f, Path(f, x)[k])
    decreases k
  {
    if k == 0 {
    } else {
      PathSuffix(f, f.up[x], k - 1);
      assert Path(f, x)[k..] == Path(f, f.up[x])[k - 1..];
    }
  }

  /** The first path entry of rank above `r` is where a linear scan of the path stops. */
  lemma {:induction false} FirstAboveOnPath(f: Forest, x: nat, r: int, k: nat)
    requires Shaped(f) && x < |f.rank|
    requires k < |Path(f, x)|
    requires forall m :: 0 <= m < |Path(f, x)| ==> Path(f, x)[m] < |f.rank|
    requires forall m :: 0 <= m < k ==> f.rank[Path(f, x)[m]] <= r
    requires f.rank[Path(f, x)[k]] > r
    ensures FirstAbove(f, x, r) == Path(f, x)[k]
    decreases k
  {
    var p := Path(f, x);
    if k == 0 {
    } else {
      var q := Path(f, f.up[x]);
      assert f.up[x] != x;
      assert forall m :: 0 <= m < |q| ==> q[m] == p[m + 1];
      assert f.rank[p[0]] <= r;
      FirstAboveOnPath(f, f.up[x], r, k - 1);
    }
  }

  // ---------- the tree nodes

  /** The parent of tree node `id`, or -1 for a root of the merge tree. */
  ghost function Parent(f: Forest, id: nat): (p: int)
    requires Valid(f) && id < |f.owner|
    ensures p != -1 ==> 0 <= p < |f.owner|
  {
    var s := f.owner[id];
    if s.level < f.rank[s.leaf] then f.ids[s.leaf][s.level + 1]
    else if f.up[s.leaf] == s.leaf then -1
    else f.ids[f.up[s.leaf]][s.level + 1]
  }

  /** The ancestor `k` levels above tree node `id`, or -1 once the tree is left. */
  ghost function Climb(f: Forest, id: nat, k: nat): (a: int)
    requires Valid(f) && id < |f.owner|
    ensures a != -1 ==> 0 <= a < |f.owner|
  {
    if k == 0 then id else
    var a := Climb(f, id, k - 1);
    if a == -1 then -1 else Parent(f, a)
  }

  lemma LeafSlot(f: Forest, x: nat)
    requires Valid(f) && x < |f.rank|
    ensures x < |f.owner| && f.owner[x] == Slot(x, 0) && f.ids[x] != [] && f.ids[x][0] == x
  {
    assert f.ids[x][0] == x;
  }

  lemma NodeParent(f: Forest, x: nat, k: nat)
    requires Valid(f) && x < |f.rank| && k <= f.rank[x]
    ensures |f.ids| == |f.rank| && |f.ids[x]| == f.rank[x] + 1 && |f.ids[f.up[x]]| == f.rank[f.up[x]] + 1
    ensures f.ids[x][k] < |f.owner|
    ensures Parent(f, f.ids[x][k]) == if k < f.rank[x] then f.ids[x][k + 1]
                                      else if f.up[x] == x then -1
                                      else f.ids[f.up[x]][k + 1]
  {
    assert f.owner[f.ids[x][k]] == Slot(x, k);
  }

  /** The level-`k` ancestor of leaf `x` is the level-`k` node of the first leaf on its
      ancestor path whose rank reaches `k`. */
  lemma {:induction false} ClimbFromLeaf(f: Forest, x: nat, k: nat)
    requires Valid(f) && x < |f.rank| && k <= f.rank[Root(f, x)]
    ensures x < |f.owner|
    ensures k <= f.rank[FirstAbove(f, x, k - 1)]
    ensures Climb(f, x, k) == f.ids[FirstAbove(f, x, k - 1)][k] && Climb(f, x, k) != -1
  {
    hide Labelled;
    LeafSlot(f, x);
    if k == 0 {
    } else {
      ClimbFromLeaf(f, x, k - 1);
      var y := FirstAbove(f, x, k - 2);
      NodeParent(f, y, k - 1);
      assert Climb(f, x, k) == Parent(f, f.ids[y][k - 1]);
      FirstAboveStep(f, x, k - 2);
    }
  }

  /** A tree has no node above the rank of its root. */
  lemma {:induction false} ClimbPastRoot(f: Forest, x: nat, k: nat)
    requires Valid(f) && x < |f.rank| && k > f.rank[Root(f, x)]
    ensures x < |f.owner| && Climb(f, x, k) == -1
  {
    hide Labelled;
    LeafSlot(f, x);
    var top := Root(f, x);
    if k - 1 > f.rank[top] {
      ClimbPastRoot(f, x, k - 1);
    } else {
      ClimbFromLeaf(f, x, k - 1);
      var y := FirstAbove(f, x, k - 2);
      assert Root(f, y) == top && f.rank[y] >= f.rank[top];
      assert f.up[y] == y;
      NodeParent(f, y, k - 1);
    }
  }

  /** Raising the threshold by one moves at most one step further up. */
  lemma {:induction false} FirstAboveStep(f: Forest, x: nat, r: int)
    requires Shaped(f) && x < |f.rank|
    requires f.rank[Root(f, x)] > r
    ensures var y := FirstAbove(f, x, r);
            FirstAbove(f, x, r + 1) == if f.rank[y] > r + 1 then y else f.up[y]
    decreases MaxRank(f.rank) - f.rank[x]
  {
    if f.rank[x] <= r && f.up[x] != x {
      FirstAboveStep(f, f.up[x], r);
    } else if f.up[x] != x {
      assert f.rank[f.up[x]] > r + 1;
    }
  }

  // ---------- uniting two leaves

  /** Hang root `a` below `p`, in the middle of another tree. */
  ghost function Attach(f: Forest, a: nat, p: nat): Forest
    requires a < |f.up|
  {
    f.(up := f.up[a := p])
  }

  /** Hang root `b` below root `a` of the same rank, giving `a` a new top node. */
  ghost function Merge(f: Forest, a: nat, b: nat): Forest
    requires a < |f.rank| == |f.ids| && b < |f.up|
  {
    Forest(f.rank[a := f.rank[a] + 1], f.up[b := a], f.ids[a := f.ids[a] + [|f.owner|]],
           f.owner + [Slot(a, f.rank[a] + 1)])
  }

  ghost function Unite(f: Forest, i: nat, j: nat): Forest
    requires Valid(f) && i < |f.rank| && j < |f.rank|
  {
    var a, b := Root(f, i), Root(f, j);
    if a == b then f
    else if f.rank[a] < f.rank[b] then Attach(f, a, FirstAbove(f, j, f.rank[a]))
    else if f.rank[a] > f.rank[b] then Attach(f, b, FirstAbove(f, i, f.rank[b]))
    else Merge(f, a, b)
  }

  /** `g` is `f` with root `c` hung below `t`, a leaf of another tree. */
  ghost predicate Linked(f: Forest, g: Forest, c: nat, t: nat) {
    && Shaped(f) && Shaped(g) && |g.rank| == |f.rank|
    && c < |f.rank| && t < |f.rank|
    && f.up[c] == c && g.up == f.up[c := t]
    && Root(f, t) != c && t != c
    && g.rank[c] == f.rank[c]
    && (forall x {:trigger g.rank[x]} :: 0 <= x < |f.rank| ==> f.rank[x] <= g.rank[x])
  }

  lemma AttachValid(f: Forest, a: nat, p: nat)
    requires Valid(f) && a < |f.rank| && p < |f.rank|
    requires f.up[a] == a && f.rank[a] < f.rank[p]
    ensures Valid(Attach(f, a, p)) && Linked(f, Attach(f, a, p), a, p)
  {
    assert Root(f, p) != a;
  }

  lemma MergeValid(f: Forest, a: nat, b: nat)
    requires Valid(f) && a < |f.rank| && b < |f.rank| && a != b
    requires f.up[a] == a && f.up[b] == b && f.rank[a] == f.rank[b]
    ensures Valid(Merge(f, a, b)) && Linked(f, Merge(f, a, b), b, a)
  {
    var g := Merge(f, a, b);
    assert g.ids[a][f.rank[a] + 1] == |f.owner|;
    forall x, k | 0 <= x < |g.ids| && 0 <= k < |g.ids[x]|
      ensures g.ids[x][k] < |g.owner| && g.owner[g.ids[x][k]] == Slot(x, k) {
      if x == a && k == f.rank[a] + 1 { } else { assert g.ids[x][k] == f.ids[x][k]; }
    }
    forall id | 0 <= id < |g.owner|
      ensures var s := g.owner[id]; s.leaf < |g.ids| && s.level < |g.ids[s.leaf]| && g.ids[s.leaf][s.level] == id {
      if id < |f.owner| { assert g.owner[id] == f.owner[id]; }
    }
  }

  /** The two ends of the link that `Unite` adds, when it adds one. */
  ghost function LinkEnds(f: Forest, i: nat, j: nat): (e: (nat, nat))
    requires Valid(f) && i < |f.rank| && j < |f.rank|
  {
    var a, b := Root(f, i), Root(f, j);
    if f.rank[a] < f.rank[b] then (a, FirstAbove(f, j, f.rank[a]))
    else if f.rank[a] > f.rank[b] then (b, FirstAbove(f, i, f.rank[b]))
    else (b, a)
  }

  lemma UniteValid(f: Forest, i: nat, j: nat)
    requires Valid(f) && i < |f.rank| && j < |f.rank|
    ensures Valid(Unite(f, i, j)) && |Unite(f, i, j).rank| == |f.rank|
    ensures Root(f, i) != Root(f, j) ==> var (c, t) := LinkEnds(f, i, j); Linked(f, Unite(f, i, j), c, t)
  {
    var a, b := Root(f, i), Root(f, j);
    if a == b {
    } else if f.rank[a] < f.rank[b] {
      AttachValid(f, a, FirstAbove(f, j, f.rank[a]));
    } else if f.rank[a] > f.rank[b] {
      AttachValid(f, b, FirstAbove(f, i, f.rank[b]));
    } else {
      MergeValid(f, a, b);
    }
  }

  /** Linking extends exactly the paths that ended in the linked root. */
  lemma {:induction false} LinkPaths(f: Forest, g: Forest, c: nat, t: nat, x: nat)
    requires Linked(f, g, c, t) && x < |f.rank|
    ensures Path(g, x) == if Root(f, x) == c then Path(f, x) + Path(f, t) else Path(f, x)
    ensures Root(g, x) == if Root(f, x) == c then Root(f, t) else Root(f, x)
    decreases Root(f, x) == c, MaxRank(f.rank) - f.rank[x]
  {
    LinkedUp(f, g, c, t, x);
    hide Path, Root, Linked, Shaped, MaxRank;
    PathStep(f, x);
    PathStep(g, x);
    if x == c {
      LinkPaths(f, g, c, t, t);
    } else if f.up[x] != x {
      LinkPaths(f, g, c, t, f.up[x]);
      JoinPaths(x, Path(f, f.up[x]), Path(f, t));
    }
  }

  lemma JoinPaths(x: nat, a: seq<nat>, b: seq<nat>)
    ensures [x] + (a + b) == ([x] + a) + b
  {
  }

  lemma LinkedUp(f: Forest, g: Forest, c: nat, t: nat, x: nat)
    requires Linked(f, g, c, t) && x < |f.rank|
    ensures Shaped(f) && Shaped(g) && |g.rank| == |f.rank| == |f.up| == |g.up| && c < |f.rank| && t < |f.rank|
    ensures f.up[c] == c && g.up[x] == if x == c then t else f.up[x]
    ensures Root(f, t) != c && t != c && f.up[x] < |f.rank|
    ensures f.rank[x] <= MaxRank(f.rank) && (f.up[x] != x ==> f.rank[x] < f.rank[f.up[x]] <= MaxRank(f.rank))
  {
  }

  lemma PathStep(f: Forest, x: nat)
    requires Shaped(f) && x < |f.rank|
    ensures f.up[x] < |f.rank|
    ensures Path(f, x) == if f.up[x] == x then [x] else [x] + Path(f, f.up[x])
    ensures Root(f, x) == if f.up[x] == x then x else Root(f, f.up[x])
  {
  }

  // ---------- the parent links a union writes

  ghost function Top(f: Forest, x: nat): (id: nat)
    requires Valid(f) && x < |f.rank|
    ensures id < |f.owner| && f.owner[id] == Slot(x, f.rank[x])
  {
    f.ids[x][f.rank[x]]
  }

  /** A node whose parent is -1 is the top node of a root. */
  lemma RootIsTop(f: Forest, id: nat)
    requires Valid(f) && id < |f.owner|
    ensures Parent(f, id) == -1 <==> var x := f.owner[id].leaf; f.up[x] == x && id == Top(f, x)
  {
    var s := f.owner[id];
    assert f.ids[s.leaf][s.level] == id;
    NodeParent(f, s.leaf, s.level);
  }

  lemma AttachLinks(f: Forest, a: nat, p: nat, id: nat)
    requires Valid(f) && a < |f.rank| && p < |f.rank| && id < |f.owner|
    requires f.up[a] == a && f.rank[a] < f.rank[p]
    ensures Valid(Attach(f, a, p))
    ensures Parent(Attach(f, a, p), id) == if id == Top(f, a) then f.ids[p][f.rank[a] + 1] else Parent(f, id)
  {
    AttachValid(f, a, p);
    var s := f.owner[id];
    assert f.ids[s.leaf][s.level] == id;
  }

  lemma MergeLinks(f: Forest, a: nat, b: nat, id: nat)
    requires Valid(f) && a < |f.rank| && b < |f.rank| && a != b && id <= |f.owner|
    requires f.up[a] == a && f.up[b] == b && f.rank[a] == f.rank[b]
    ensures Valid(Merge(f, a, b))
    ensures Parent(Merge(f, a, b), id) ==
            if id == |f.owner| then -1
            else if id == Top(f, a) || id == Top(f, b) then |f.owner|
            else Parent(f, id)
  {
    MergeValid(f, a, b);
    var g := Merge(f, a, b);
    var s := g.owner[id];
    NodeParent(g, s.leaf, s.level);
    if id < |f.owner| {
      assert s == f.owner[id] && f.ids[s.leaf][s.level] == id;
      NodeParent(f, s.leaf, s.level);
    }
  }

  // ---------- room in the compact array

  function Roots(f: Forest): set<nat> {
    set x | 0 <= x < |f.up| && f.up[x] == x
  }

  /** Every union that makes a node also uses up a root. */
  ghost predicate Frugal(f: Forest) {
    |f.owner| + |Roots(f)| <= 2 * |f.rank|
  }

  function UpTo(n: nat): (s: set<nat>)
    ensures forall x: nat :: x in s <==> x < n
    ensures |s| == n
  {
    if n == 0 then {} else UpTo(n - 1) + {n - 1}
  }

  lemma InitFrugal(n: nat)
    ensures Frugal(Init(n)) && |Roots(Init(n))| == n
  {
    assert Roots(Init(n)) == UpTo(n);
  }

  lemma LinkRoots(f: Forest, g: Forest, c: nat, t: nat)
    requires Linked(f, g, c, t)
    ensures Roots(g) == Roots(f) - {c} && |Roots(g)| == |Roots(f)| - 1
  {
  }

  lemma UniteRoots(f: Forest, i: nat, j: nat)
    requires Valid(f) && i < |f.rank| && j < |f.rank|
    ensures |Roots(Unite(f, i, j))| == |Roots(f)| - (if Root(f, i) == Root(f, j) then 0 else 1)
    ensures Frugal(f) ==> Frugal(Unite(f, i, j))
  {
    if Root(f, i) != Root(f, j) {
      UniteValid(f, i, j);
      var (c, t) := LinkEnds(f, i, j);
      LinkRoots(f, Unite(f, i, j), c, t);
    }
  }

  /** The compact array of `2n - 1` entries is never overrun. */
  lemma NodesFit(f: Forest)
    requires Valid(f) && Frugal(f) && |f.rank| > 0
    ensures |f.owner| <= 2 * |f.rank| - 1
  {
    assert Root(f, 0) in Roots(f);
  }

  lemma InitLinks(n: nat, id: nat)
    requires id < n
    ensures Valid(Init(n)) && Parent(Init(n), id) == -1
  {
    InitValid(n);
  }
}
