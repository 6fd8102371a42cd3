/** What every run of unions guarantees: which leaves end up in one tree, how deep the
    tree is, and at which level two leaves meet. */
module PsiDendrogram {
  import opened PsiForest

  type Pairs = seq<(nat, nat)>

  ghost predicate InRange(pairs: Pairs, n: nat) {
    forall m {:trigger pairs[m]} :: 0 <= m < |pairs| ==> pairs[m].0 < n && pairs[m].1 < n
  }

  /** The forest after uniting the pairs in order. */
  ghost function Run(n: nat, pairs: Pairs): (f: Forest)
    requires InRange(pairs, n)
    ensures Valid(f) && |f.rank| == n
    decreases |pairs|
  {
    if pairs == [] then
      InitValid(n);
      Init(n)
    else
      var last := pairs[|pairs| - 1];
      var f := Run(n, pairs[..|pairs| - 1]);
      UniteValid(f, last.0, last.1);
      Unite(f, last.0, last.1)
  }

  ghost predicate Same(f: Forest, x: nat, y: nat)
    requires Shaped(f) && x < |f.rank| && y < |f.rank|
  {
    Root(f, x) == Root(f, y)
  }

  // ---------- connectivity is the equivalence closure of the united pairs

  ghost predicate Touch(pairs: Pairs, u: nat, v: nat) {
    (u, v) in pairs || (v, u) in pairs
  }

  ghost predicate Walk(pairs: Pairs, p: seq<nat>, a: nat, b: nat) {
    && p != [] && p[0] == a && p[|p| - 1] == b
    && forall k :: 0 <= k < |p| - 1 ==> Touch(pairs, p[k], p[k + 1])
  }

  ghost predicate Joined(pairs: Pairs, a: nat, b: nat) {
    exists p: seq<nat> :: Walk(pairs, p, a, b)
  }

  /** A union joins exactly the two components it names. */
  lemma UniteSame(f: Forest, i: nat, j: nat, x: nat, y: nat)
    requires Valid(f) && i < |f.rank| && j < |f.rank| && x < |f.rank| && y < |f.rank|
    ensures Valid(Unite(f, i, j)) && |Unite(f, i, j).rank| == |f.rank|
    ensures Same(Unite(f, i, j), x, y) <==>
            Same(f, x, y) || (Same(f, x, i) && Same(f, y, j)) || (Same(f, x, j) && Same(f, y, i))
  {
    hide Labelled;
    UniteValid(f, i, j);
    if Root(f, i) != Root(f, j) {
      var (c, t) := LinkEnds(f, i, j);
      LinkPaths(f, Unite(f, i, j), c, t, x);
      LinkPaths(f, Unite(f, i, j), c, t, y);
    }
  }

  lemma {:induction false} TouchedSame(n: nat, pairs: Pairs, m: nat)
    requires InRange(pairs, n) && m < |pairs|
    ensures Same(Run(n, pairs), pairs[m].0, pairs[m].1)
    decreases |pairs|
  {
    var before, last := pairs[..|pairs| - 1], pairs[|pairs| - 1];
    var f := Run(n, before);
    if m < |pairs| - 1 {
      TouchedSame(n, before, m);
      assert before[m] == pairs[m];
    }
    UniteSame(f, last.0, last.1, pairs[m].0, pairs[m].1);
  }

  lemma {:induction false} WalkSame(n: nat, pairs: Pairs, p: seq<nat>, a: nat, b: nat)
    requires InRange(pairs, n) && a < n && Walk(pairs, p, a, b)
    ensures b < n && Same(Run(n, pairs), a, b)
    decreases |p|
  {
    if |p| <= 1 {
    } else {
      assert Touch(pairs, p[0], p[1]);
      var m :| 0 <= m < |pairs| && (pairs[m] == (a, p[1]) || pairs[m] == (p[1], a));
      TouchedSame(n, pairs, m);
      var q := p[1..];
      forall k | 0 <= k < |q| - 1 ensures Touch(pairs, q[k], q[k + 1]) {
        assert Touch(pairs, p[k + 1], p[k + 1 + 1]);
      }
      assert Walk(pairs, q, p[1], b);
      WalkSame(n, pairs, q, p[1], b);
    }
  }

  lemma WalkGrows(before: Pairs, pairs: Pairs, a: nat, b: nat)
    requires before <= pairs && Joined(before, a, b)
    ensures Joined(pairs, a, b)
  {
    var p :| Walk(before, p, a, b);
    assert Walk(pairs, p, a, b);
  }

  lemma WalkAcross(pairs: Pairs, a: nat, u: nat, v: nat, b: nat)
    requires Joined(pairs, a, u) && Touch(pairs, u, v) && Joined(pairs, v, b)
    ensures Joined(pairs, a, b)
  {
    var p :| Walk(pairs, p, a, u);
    var q :| Walk(pairs, q, v, b);
    var r := p + q;
    forall k | 0 <= k < |r| - 1 ensures Touch(pairs, r[k], r[k + 1]) {
      if k < |p| - 1 { assert Touch(pairs, p[k], p[k + 1]); }
      else if k >= |p| { assert Touch(pairs, q[k - |p|], q[k - |p| + 1]); }
    }
    assert Walk(pairs, r, a, b);
  }

  lemma {:induction false} SameJoined(n: nat, pairs: Pairs, a: nat, b: nat)
    requires InRange(pairs, n) && a < n && b < n && Same(Run(n, pairs), a, b)
    ensures Joined(pairs, a, b)
    decreases |pairs|
  {
    if pairs == [] {
      assert Walk(pairs, [a], a, b);
    } else {
      var before := pairs[..|pairs| - 1];
      var (i, j) := pairs[|pairs| - 1];
      var f := Run(n, before);
      UniteSame(f, i, j, a, b);
      assert Touch(pairs, i, j) && Touch(pairs, j, i);
      if Same(f, a, b) {
        SameJoined(n, before, a, b);
        WalkGrows(before, pairs, a, b);
      } else if Same(f, a, i) {
        SameJoined(n, before, a, i);
        SameJoined(n, before, j, b);
        WalkGrows(before, pairs, a, i);
        WalkGrows(before, pairs, j, b);
        WalkAcross(pairs, a, i, j, b);
      } else {
        SameJoined(n, before, a, j);
        SameJoined(n, before, i, b);
        WalkGrows(before, pairs, a, j);
        WalkGrows(before, pairs, i, b);
        WalkAcross(pairs, a, j, i, b);
      }
    }
  }

  /** Two leaves share a root exactly when the united pairs connect them. */
  lemma Connectivity(n: nat, pairs: Pairs, a: nat, b: nat)
    requires InRange(pairs, n) && a < n && b < n
    ensures Same(Run(n, pairs), a, b) <==> Joined(pairs, a, b)
  {
    if Joined(pairs, a, b) {
      var p :| Walk(pairs, p, a, b);
      WalkSame(n, pairs, p, a, b);
    }
    if Same(Run(n, pairs), a, b) { SameJoined(n, pairs, a, b); }
  }

  // ---------- counting merges

  /** How many unions of a run added an edge. */
  ghost function Merges(n: nat, pairs: Pairs): nat
    requires InRange(pairs, n)
    decreases |pairs|
  {
    if pairs == [] then 0 else
    var last, before := pairs[|pairs| - 1], pairs[..|pairs| - 1];
    Merges(n, before) + if Same(Run(n, before), last.0, last.1) then 0 else 1
  }

  /** The entries of the compact array that have no parent. */
  ghost function Open(f: Forest): set<nat>
    requires Valid(f)
  {
    set id: nat | id < |f.owner| && Parent(f, id) == -1
  }

  ghost function Tops(f: Forest, rs: set<nat>): set<nat>
    requires Valid(f) && forall r :: r in rs ==> r < |f.rank|
  {
    set r | r in rs :: Top(f, r)
  }

  lemma TopsApart(f: Forest, a: nat, b: nat)
    requires Valid(f) && a < |f.rank| && b < |f.rank| && Top(f, a) == Top(f, b)
    ensures a == b
  {
  }

  lemma {:induction false} TopsSize(f: Forest, rs: set<nat>)
    requires Valid(f) && forall r :: r in rs ==> r < |f.rank|
    ensures |Tops(f, rs)| == |rs|
    decreases |rs|
  {
    hide Valid, Top;
    if rs == {} {
      assert Tops(f, rs) == {};
    } else {
      var r :| r in rs;
      TopsSize(f, rs - {r});
      forall q | q in rs - {r} ensures Top(f, q) != Top(f, r) {
        if Top(f, q) == Top(f, r) { TopsApart(f, q, r); }
      }
      assert Tops(f, rs) == Tops(f, rs - {r}) + {Top(f, r)};
    }
  }

  /** The entries without a parent are the tops of the roots, one a root. */
  lemma OpenEntries(f: Forest)
    requires Valid(f)
    ensures |Open(f)| == |Roots(f)|
  {
    var rs := Roots(f);
    forall id: nat | id < |f.owner| ensures id in Open(f) <==> id in Tops(f, rs) {
      RootIsTop(f, id);
    }
    assert Open(f) == Tops(f, rs);
    TopsSize(f, rs);
  }

  /** Each successful union removes one root, and with it one entry without a parent; the node
      array never overflows. */
  lemma {:induction false} RunCounts(n: nat, pairs: Pairs)
    requires InRange(pairs, n)
    ensures var f := Run(n, pairs);
            && |Open(f)| == |Roots(f)| == n - Merges(n, pairs)
            && Frugal(f)
            && (n > 0 ==> n <= |f.owner| <= 2 * n - 1)
    decreases |pairs|
  {
    var f := Run(n, pairs);
    if pairs == [] {
      InitFrugal(n);
    } else {
      var before, last := pairs[..|pairs| - 1], pairs[|pairs| - 1];
      RunCounts(n, before);
      UniteRoots(Run(n, before), last.0, last.1);
    }
    OpenEntries(f);
    if n > 0 { NodesFit(f); }
  }

  // ---------- the shape of the merge tree

  /** All leaves of a tree sit at the same depth, the rank of its root, and climbing that
      far leads every one of them to the same top node. */
  lemma UniformDepth(f: Forest, x: nat, k: nat)
    requires Valid(f) && x < |f.rank|
    ensures x < |f.owner|
    ensures Climb(f, x, k) != -1 <==> k <= f.rank[Root(f, x)]
    ensures k == f.rank[Root(f, x)] ==> Climb(f, x, k) == Top(f, Root(f, x))
  {
    hide Labelled;
    if k <= f.rank[Root(f, x)] {
      ClimbFromLeaf(f, x, k);
      if k == f.rank[Root(f, x)] {
        var y := FirstAbove(f, x, k - 1);
        assert Root(f, y) == Root(f, x) && y == Root(f, x);
      }
    } else {
      ClimbPastRoot(f, x, k);
    }
  }

  ghost function Members(f: Forest, r: nat): set<nat>
    requires Shaped(f)
  {
    set x | 0 <= x < |f.rank| && Root(f, x) == r
  }

  function Pow2(k: nat): (p: nat)
    ensures p >= 1
  {
    if k == 0 then 1 else 2 * Pow2(k - 1)
  }

  ghost predicate Bushy(f: Forest)
    requires Shaped(f)
  {
    forall r {:trigger f.up[r]} :: 0 <= r < |f.rank| && f.up[r] == r ==> |Members(f, r)| >= Pow2(f.rank[r])
  }

  lemma UniteMembers(f: Forest, i: nat, j: nat, r: nat)
    requires Valid(f) && i < |f.rank| && j < |f.rank| && Root(f, i) != Root(f, j) && r < |f.rank|
    ensures var g := Unite(f, i, j); var (c, t) := LinkEnds(f, i, j);
            && Valid(g) && |g.rank| == |f.rank|
            && Members(g, r) == if r == c then {} else if r == Root(f, t) then Members(f, r) + Members(f, c)
                else Members(f, r)
  {
    hide Labelled;
    UniteValid(f, i, j);
    var g := Unite(f, i, j);
    var (c, t) := LinkEnds(f, i, j);
    forall x | 0 <= x < |f.rank| ensures Root(g, x) == if Root(f, x) == c then Root(f, t) else Root(f, x) {
      LinkPaths(f, g, c, t, x);
    }
  }

  /** A rank is raised only when two trees of that rank become one. */
  lemma UniteRank(f: Forest, i: nat, j: nat, r: nat)
    requires Valid(f) && i < |f.rank| && j < |f.rank| && Root(f, i) != Root(f, j)
    requires r < |f.rank| && Unite(f, i, j).up[r] == r
    ensures var g := Unite(f, i, j); var (c, t) := LinkEnds(f, i, j);
            && r != c && f.up[r] == r
            && (g.rank[r] == f.rank[r] || (r == Root(f, t) && g.rank[r] == f.rank[r] + 1 && f.rank[c] == f.rank[r]))
  {
    hide Labelled;
    UniteValid(f, i, j);
  }

  lemma BushyAt(f: Forest, i: nat, j: nat, r: nat)
    requires Valid(f) && i < |f.rank| && j < |f.rank| && Bushy(f) && Root(f, i) != Root(f, j)
    requires r < |f.rank| && Unite(f, i, j).up[r] == r
    ensures Valid(Unite(f, i, j))
    ensures |Members(Unite(f, i, j), r)| >= Pow2(Unite(f, i, j).rank[r])
  {
    UniteValid(f, i, j);
    UniteRank(f, i, j, r);
    UniteMembers(f, i, j, r);
    hide Unite, Labelled, Linked;
    var (c, t) := LinkEnds(f, i, j);
    assert f.up[c] == c && |Members(f, r)| >= Pow2(f.rank[r]) && |Members(f, c)| >= Pow2(f.rank[c]);
    if r == Root(f, t) {
      assert Members(f, r) !! Members(f, c);
      assert |Members(f, r) + Members(f, c)| == |Members(f, r)| + |Members(f, c)|;
    }
  }

  /** A union doubles the bound when it raises a rank: `2^rank` leaves below every root. */
  lemma UniteBushy(f: Forest, i: nat, j: nat)
    requires Valid(f) && i < |f.rank| && j < |f.rank| && Bushy(f)
    ensures Valid(Unite(f, i, j)) && Bushy(Unite(f, i, j))
  {
    UniteValid(f, i, j);
    if Root(f, i) != Root(f, j) {
      forall r | 0 <= r < |f.rank| && Unite(f, i, j).up[r] == r
        ensures |Members(Unite(f, i, j), r)| >= Pow2(Unite(f, i, j).rank[r]) {
        BushyAt(f, i, j, r);
      }
    }
  }

  lemma {:induction false} RunBushy(n: nat, pairs: Pairs)
    requires InRange(pairs, n)
    ensures Bushy(Run(n, pairs))
    decreases |pairs|
  {
    if pairs == [] {
      var f := Init(n);
      InitValid(n);
      forall r | 0 <= r < n ensures |Members(f, r)| >= Pow2(f.rank[r]) {
        assert r in Members(f, r);
      }
    } else {
      RunBushy(n, pairs[..|pairs| - 1]);
      UniteBushy(Run(n, pairs[..|pairs| - 1]), pairs[|pairs| - 1].0, pairs[|pairs| - 1].1);
    }
  }

  /** Trees are at most logarithmic in height: 2 to the height is at most the number of leaves in
      that tree. */
  lemma LogHeight(n: nat, pairs: Pairs, x: nat)
    requires InRange(pairs, n) && x < n
    ensures var f := Run(n, pairs); Pow2(f.rank[Root(f, x)]) <= |Members(f, Root(f, x))| <= n
  {
    RunBushy(n, pairs);
    var f := Run(n, pairs);
    var r := Root(f, x);
    assert f.up[r] == r;
    SubsetSize(Members(f, r), UpTo(n));
  }

  lemma {:induction false} SubsetSize(a: set<nat>, b: set<nat>)
    requires a <= b
    ensures |a| <= |b|
  {
    assert b == a + (b - a);
  }

  // ---------- every internal node has at least two children

  /** Each level a leaf was raised to still has the tree whose merge raised it. */
  ghost predicate Forked(f: Forest)
    requires Shaped(f)
  {
    forall x, k {:trigger Rival(f, x, k)} :: 0 <= x < |f.rank| && 1 <= k <= f.rank[x] ==> Rival(f, x, k)
  }

  ghost predicate Rival(f: Forest, x: nat, k: nat)
    requires Shaped(f)
  {
    exists y :: 0 <= y < |f.up| && y != x && f.up[y] == x && f.rank[y] == k - 1
  }

  lemma UniteForked(f: Forest, i: nat, j: nat)
    requires Valid(f) && i < |f.rank| && j < |f.rank| && Forked(f)
    ensures Valid(Unite(f, i, j)) && Forked(Unite(f, i, j))
  {
    hide Labelled;
    UniteValid(f, i, j);
    var g := Unite(f, i, j);
    if Root(f, i) != Root(f, j) {
      var (c, t) := LinkEnds(f, i, j);
      forall x, k | 0 <= x < |g.rank| && 1 <= k <= g.rank[x] ensures Rival(g, x, k) {
        if k <= f.rank[x] {
          assert Rival(f, x, k);
          var y :| 0 <= y < |f.up| && y != x && f.up[y] == x && f.rank[y] == k - 1;
          assert g.up[y] == x && g.rank[y] == k - 1;
        } else {
          assert g.up[c] == x && g.rank[c] == k - 1;
        }
      }
    }
  }

  lemma {:induction false} RunForked(n: nat, pairs: Pairs)
    requires InRange(pairs, n)
    ensures Forked(Run(n, pairs))
    decreases |pairs|
  {
    if pairs == [] {
    } else {
      RunForked(n, pairs[..|pairs| - 1]);
      UniteForked(Run(n, pairs[..|pairs| - 1]), pairs[|pairs| - 1].0, pairs[|pairs| - 1].1);
    }
  }

  /** A node above the leaves has two distinct children. */
  lemma TwoChildren(f: Forest, id: nat)
    requires Valid(f) && Forked(f) && id < |f.owner| && f.owner[id].level > 0
    ensures exists c, d ::
              0 <= c < |f.owner| && 0 <= d < |f.owner| && c != d && Parent(f, c) == id
              && Parent(f, d) == id
  {
    var s := f.owner[id];
    assert f.ids[s.leaf][s.level] == id;
    assert Rival(f, s.leaf, s.level);
    var y :| 0 <= y < |f.up| && y != s.leaf && f.up[y] == s.leaf && f.rank[y] == s.level - 1;
    var c, d := f.ids[s.leaf][s.level - 1], Top(f, y);
    NodeParent(f, s.leaf, s.level - 1);
    NodeParent(f, y, f.rank[y]);
    assert f.owner[c] == Slot(s.leaf, s.level - 1);
    assert Parent(f, c) == id && Parent(f, d) == id;
  }

  // ---------- where two leaves meet

  /** `g` keeps every rank of `f`, except that root `t` may have risen by one. */
  ghost predicate RankStep(f: Forest, g: Forest, t: nat) {
    && |g.rank| == |f.rank| == |f.up| && t < |f.rank|
    && (g.rank == f.rank || (f.up[t] == t && g.rank == f.rank[t := f.rank[t] + 1]))
  }

  lemma {:induction false} FirstAboveKept(f: Forest, g: Forest, c: nat, t: nat, x: nat, r: int)
    requires Linked(f, g, c, t) && RankStep(f, g, t) && x < |f.rank| && f.rank[Root(f, x)] > r
    ensures FirstAbove(g, x, r) == FirstAbove(f, x, r)
    decreases MaxRank(f.rank) - f.rank[x]
  {
    if f.rank[x] <= r { FirstAboveKept(f, g, c, t, f.up[x], r); }
  }

  lemma {:induction false} FirstAboveCrosses(f: Forest, g: Forest, c: nat, t: nat, x: nat, r: int)
    requires Linked(f, g, c, t) && RankStep(f, g, t) && x < |f.rank| && Root(f, x) == c && f.rank[c] <= r
    ensures FirstAbove(g, x, r) == FirstAbove(g, t, r)
    decreases MaxRank(f.rank) - f.rank[x]
  {
    if x == c {
    } else {
      FirstAboveCrosses(f, g, c, t, f.up[x], r);
    }
  }

  lemma {:induction false} FirstAboveRisen(f: Forest, g: Forest, c: nat, t: nat, x: nat)
    requires Linked(f, g, c, t) && g.rank == f.rank[t := f.rank[t] + 1] && x < |f.rank| && Root(f, x) == t
    requires f.up[t] == t
    ensures FirstAbove(g, x, f.rank[t]) == t
    decreases MaxRank(f.rank) - f.rank[x]
  {
    if x == t {
    } else {
      FirstAboveRisen(f, g, c, t, f.up[x]);
    }
  }

  ghost function MeetLevel(f: Forest, i: nat, j: nat): nat
    requires Shaped(f) && i < |f.rank| && j < |f.rank|
  {
    var a, b := f.rank[Root(f, i)], f.rank[Root(f, j)];
    1 + if a < b then a else b
  }

  /** `g` results from hanging the tree of `low`, the lower of the two, into that of `other`. */
  ghost predicate Hung(f: Forest, g: Forest, low: nat, other: nat, c: nat, t: nat)
    requires Shaped(f) && low < |f.rank| && other < |f.rank|
  {
    && Linked(f, g, c, t) && RankStep(f, g, t)
    && c == Root(f, low) && Root(f, t) == Root(f, other) && f.rank[c] <= f.rank[Root(f, other)]
    && if f.rank[c] < f.rank[Root(f, other)]
       then g.rank == f.rank && t == FirstAbove(f, other, f.rank[c])
       else g.rank == f.rank[t := f.rank[t] + 1] && t == Root(f, other)
  }

  lemma UniteHung(f: Forest, i: nat, j: nat)
    requires Valid(f) && i < |f.rank| && j < |f.rank| && Root(f, i) != Root(f, j)
    ensures var g := Unite(f, i, j); var (c, t) := LinkEnds(f, i, j);
            && Valid(g) && |g.rank| == |f.rank| && c < |f.rank| && MeetLevel(f, i, j) == f.rank[c] + 1
            && Shaped(f) && (Hung(f, g, i, j, c, t) || Hung(f, g, j, i, c, t))
  {
    hide Labelled;
    UniteValid(f, i, j);
  }

  lemma OwnersApart(f: Forest, y: nat, z: nat, k: nat)
    requires Valid(f) && y < |f.rank| && z < |f.rank| && k <= f.rank[y] && k <= f.rank[z] && y != z
    ensures |f.ids| == |f.rank| && k < |f.ids[y]| && k < |f.ids[z]| && f.ids[y][k] != f.ids[z][k]
  {
    assert f.owner[f.ids[y][k]] == Slot(y, k) && f.owner[f.ids[z][k]] == Slot(z, k);
  }

  lemma HungApart(f: Forest, g: Forest, low: nat, other: nat, c: nat, t: nat, k: nat)
    requires Valid(f) && Valid(g) && low < |f.rank| && other < |f.rank| && Root(f, low) != Root(f, other)
    requires c < |f.rank| == |g.rank| && Hung(f, g, low, other, c, t) && k <= f.rank[c]
    ensures low < |g.owner| && other < |g.owner|
    ensures Climb(g, low, k) != -1 && Climb(g, other, k) != -1 && Climb(g, low, k) != Climb(g, other, k)
  {
    hide Labelled, Climb, Path, FirstAbove, Root, Shaped;
    FirstAboveKept(f, g, c, t, low, k - 1);
    FirstAboveKept(f, g, c, t, other, k - 1);
    LinkPaths(f, g, c, t, low);
    LinkPaths(f, g, c, t, other);
    ClimbFromLeaf(g, low, k);
    ClimbFromLeaf(g, other, k);
    OwnersApart(g, FirstAbove(f, low, k - 1), FirstAbove(f, other, k - 1), k);
  }

  /** From both sides, `t` is the first leaf outranking the tree that was hung below it. */
  lemma HungFirst(f: Forest, g: Forest, low: nat, other: nat, c: nat, t: nat)
    requires Shaped(f) && low < |f.rank| && other < |f.rank| && Hung(f, g, low, other, c, t)
    ensures FirstAbove(g, low, f.rank[c]) == t == FirstAbove(g, other, f.rank[c])
    ensures g.rank[Root(g, low)] > f.rank[c] && g.rank[Root(g, other)] > f.rank[c]
  {
    hide Path, Shaped;
    FirstAboveCrosses(f, g, c, t, low, f.rank[c]);
    if f.rank[c] < f.rank[Root(f, other)] {
      FirstAboveKept(f, g, c, t, other, f.rank[c]);
    } else {
      FirstAboveRisen(f, g, c, t, other);
    }
    LinkPaths(f, g, c, t, low);
    LinkPaths(f, g, c, t, other);
  }

  lemma HungMeet(f: Forest, g: Forest, low: nat, other: nat, c: nat, t: nat)
    requires Valid(f) && Valid(g) && low < |f.rank| && other < |f.rank| && c < |f.rank| == |g.rank|
    requires Hung(f, g, low, other, c, t)
    ensures low < |g.owner| && other < |g.owner|
    ensures Climb(g, low, f.rank[c] + 1) != -1 && Climb(g, low, f.rank[c] + 1) == Climb(g, other, f.rank[c] + 1)
  {
    hide Labelled, Climb, Path, Hung, FirstAbove, Root;
    HungFirst(f, g, low, other, c, t);
    ClimbFromLeaf(g, low, f.rank[c] + 1);
    ClimbFromLeaf(g, other, f.rank[c] + 1);
  }

  /** Two leaves of different trees stay apart below the meeting level and share a node there. */
  lemma UniteMeets(f: Forest, i: nat, j: nat, k: nat)
    requires Valid(f) && i < |f.rank| && j < |f.rank| && Root(f, i) != Root(f, j) && k <= MeetLevel(f, i, j)
    ensures var g := Unite(f, i, j); Valid(g) && i < |g.owner| && j < |g.owner|
    ensures var g := Unite(f, i, j);
            Climb(g, i, k) != -1 && Climb(g, j, k) != -1
                && (Climb(g, i, k) == Climb(g, j, k) <==> k == MeetLevel(f, i, j))
  {
    hide Unite, Labelled, Climb, Root, Shaped, Hung, LinkEnds, FirstAbove;
    UniteHung(f, i, j);
    var g := Unite(f, i, j);
    var (c, t) := LinkEnds(f, i, j);
    var low, other := if Hung(f, g, i, j, c, t) then i else j, if Hung(f, g, i, j, c, t) then j else i;
    if k <= f.rank[c] {
      HungApart(f, g, low, other, c, t, k);
    } else {
      HungMeet(f, g, low, other, c, t);
    }
  }

  /** Parent links are write-once. */
  lemma UniteKeepsParent(f: Forest, i: nat, j: nat, id: nat)
    requires Valid(f) && i < |f.rank| && j < |f.rank| && id < |f.owner| && Parent(f, id) != -1
    ensures Valid(Unite(f, i, j)) && |f.owner| <= |Unite(f, i, j).owner|
    ensures Parent(Unite(f, i, j), id) == Parent(f, id)
  {
    var a, b := Root(f, i), Root(f, j);
    NodeParent(f, a, f.rank[a]);
    NodeParent(f, b, f.rank[b]);
    if a != b {
      if f.rank[a] < f.rank[b] {
        AttachLinks(f, a, FirstAbove(f, j, f.rank[a]), id);
      } else if f.rank[a] > f.rank[b] {
        AttachLinks(f, b, FirstAbove(f, i, f.rank[b]), id);
      } else {
        MergeLinks(f, a, b, id);
      }
    }
  }

  lemma {:induction false} UniteKeepsClimb(f: Forest, i: nat, j: nat, id: nat, k: nat)
    requires Valid(f) && i < |f.rank| && j < |f.rank| && id < |f.owner| && Climb(f, id, k) != -1
    ensures Valid(Unite(f, i, j)) && id < |Unite(f, i, j).owner|
    ensures Climb(Unite(f, i, j), id, k) == Climb(f, id, k)
  {
    UniteValid(f, i, j);
    if k == 0 {
    } else {
      UniteKeepsClimb(f, i, j, id, k - 1);
      UniteKeepsParent(f, i, j, Climb(f, id, k - 1));
    }
  }

  /** What a leaf can reach never changes once it is reachable. */
  lemma {:induction false} RunKeepsClimb(n: nat, pairs: Pairs, m: nat, id: nat, k: nat)
    requires InRange(pairs, n) && m <= |pairs|
    requires id < |Run(n, pairs[..m]).owner| && Climb(Run(n, pairs[..m]), id, k) != -1
    ensures id < |Run(n, pairs).owner| && Climb(Run(n, pairs), id, k) == Climb(Run(n, pairs[..m]), id, k)
    decreases |pairs| - m
  {
    hide Unite, Climb, Labelled, Shaped;
    if m < |pairs| {
      assert pairs[..m + 1][..m] == pairs[..m];
      UniteKeepsClimb(Run(n, pairs[..m]), pairs[m].0, pairs[m].1, id, k);
      RunKeepsClimb(n, pairs, m + 1, id, k);
    } else {
      assert pairs[..m] == pairs;
    }
  }

  /** In the finished tree, a pair whose union succeeded meets exactly one level above the
      lower of the two ranks their roots had at that moment. */
  lemma Dendrogram(n: nat, pairs: Pairs, m: nat, k: nat)
    requires InRange(pairs, n) && m < |pairs|
    requires !Same(Run(n, pairs[..m]), pairs[m].0, pairs[m].1)
    requires k <= MeetLevel(Run(n, pairs[..m]), pairs[m].0, pairs[m].1)
    ensures pairs[m].0 < |Run(n, pairs).owner| && pairs[m].1 < |Run(n, pairs).owner|
    ensures var f := Run(n, pairs); var h := MeetLevel(Run(n, pairs[..m]), pairs[m].0, pairs[m].1);
            Climb(f, pairs[m].0, k) == Climb(f, pairs[m].1, k) <==> k == h
    ensures Climb(Run(n, pairs), pairs[m].0, k) != -1
  {
    hide Unite, Climb, Labelled, Shaped, MeetLevel;
    var f := Run(n, pairs[..m]);
    var (i, j) := pairs[m];
    assert pairs[..m + 1][..m] == pairs[..m];
    UniteMeets(f, i, j, k);
    RunKeepsClimb(n, pairs, m + 1, i, k);
    RunKeepsClimb(n, pairs, m + 1, j, k);
  }
}
