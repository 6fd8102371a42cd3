/** Trees built over given subtrees: `made` new nodes above, each subtree exactly once. */
module PsiGraft {
  import opened PsiNodes
  import opened PsiRebalance
  import opened PsiMergeTree

  /** `gs` hang the subtrees `ts`, each exactly once, under the new nodes `made`. */
  ghost predicate Grafted(gs: seq<Shape>, ts: seq<Shape>, made: set<PsiTreeNode>) {
    && SeparateAll(gs) && SeparateAll(ts)
    && NodesOf(gs) == NodesOf(ts) + made && made !! NodesOf(ts)
    && multiset(FrontierOf(gs, made)) == multiset(ts)
    && multiset(LeavesOf(gs)) == multiset(LeavesOf(ts))
    && (BranchingAll(ts) ==> BranchingAll(gs))
  }

  lemma {:induction false} FrontierConcat(a: seq<Shape>, b: seq<Shape>, made: set<PsiTreeNode>)
    ensures FrontierOf(a + b, made) == FrontierOf(a, made) + FrontierOf(b, made)
    decreases |b|
  {
    if b == [] {
      assert a + b == a;
    } else {
      FrontierConcat(a, b[..|b| - 1], made);
      assert (a + b)[..|a + b| - 1] == a + b[..|b| - 1];
    }
  }

  lemma FrontierSingle(t: Shape, made: set<PsiTreeNode>)
    ensures FrontierOf([t], made) == Frontier(t, made)
  {
    assert [t][..0] == [];
  }

  /** Nodes that occur nowhere in the trees do not move their frontier. */
  lemma {:induction false} FrontierIgnores(ts: seq<Shape>, a: set<PsiTreeNode>, b: set<PsiTreeNode>)
    requires NodesOf(ts) !! b
    ensures FrontierOf(ts, a + b) == FrontierOf(ts, a)
    decreases ts
  {
    if ts == [] {
    } else {
      var init, t := ts[..|ts| - 1], ts[|ts| - 1];
      assert ts == init + [t];
      NodesConcat(init, [t]);
      LeavesOne(t);
      RootParts(t);
      FrontierIgnores(init, a, b);
      FrontierIgnores(t.kids, a, b);
    }
  }

  /** Cutting at `b` first and then at `a` is cutting at both. */
  lemma {:induction false} FrontierCompose(ts: seq<Shape>, a: set<PsiTreeNode>, b: set<PsiTreeNode>)
    requires a !! b && NodesOf(FrontierOf(ts, b)) !! b
    ensures FrontierOf(ts, a + b) == FrontierOf(FrontierOf(ts, b), a)
    decreases ts
  {
    if ts == [] {
    } else {
      var init, t := ts[..|ts| - 1], ts[|ts| - 1];
      NodesConcat(FrontierOf(init, b), Frontier(t, b));
      FrontierConcat(FrontierOf(init, b), Frontier(t, b), a);
      FrontierCompose(init, a, b);
      if t.node in b {
        FrontierCompose(t.kids, a, b);
      } else {
        FrontierSingle(t, a);
        FrontierSingle(t, a + b);
        FrontierIgnores([t], a, b);
      }
    }
  }

  /** Frontier and leaves of a list of trees do not depend on its order, as multisets. */
  lemma {:induction false} OrderIrrelevant(a: seq<Shape>, b: seq<Shape>, made: set<PsiTreeNode>)
    requires multiset(a) == multiset(b)
    ensures multiset(FrontierOf(a, made)) == multiset(FrontierOf(b, made))
    ensures multiset(LeavesOf(a)) == multiset(LeavesOf(b))
    ensures NodesOf(a) == NodesOf(b)
    ensures BranchingAll(a) <==> BranchingAll(b)
    decreases |a|
  {
    if a == [] {
      assert |multiset(b)| == 0;
    } else {
      hide FrontierOf, LeavesOf, NodesOf, BranchingAll;
      var k := FindLast(a, b);
      var init, t, c, d := a[..|a| - 1], a[|a| - 1], b[..k], b[k + 1..];
      OrderIrrelevant(init, c + d, made);
      MoveOut(c, t, d, made);
      MoveOut(init, t, [], made);
      assert (init + [t]) + [] == a && init + [] == init;
    }
  }

  /** The last member of a list, found in a permutation of the list. */
  lemma FindLast(a: seq<Shape>, b: seq<Shape>) returns (k: nat)
    requires multiset(a) == multiset(b) && a != []
    ensures k < |b| && b[k] == a[|a| - 1]
    ensures multiset(a[..|a| - 1]) == multiset(b[..k] + b[k + 1..])
    ensures b == (b[..k] + [a[|a| - 1]]) + b[k + 1..] && a == a[..|a| - 1] + [a[|a| - 1]]
  {
    var init, t := a[..|a| - 1], a[|a| - 1];
    assert t in multiset(a);
    k :| 0 <= k < |b| && b[k] == t;
    WithoutAt(b, k);
    WithoutAt(a, |a| - 1);
    assert a[..|a| - 1] + a[|a| - 1 + 1..] == init;
    Cancel(multiset(init), multiset(b[..k] + b[k + 1..]), t);
  }

  lemma Cancel(x: multiset<Shape>, y: multiset<Shape>, t: Shape)
    requires x + multiset{t} == y + multiset{t}
    ensures x == y
  {
    assert x == (x + multiset{t}) - multiset{t};
    assert y == (y + multiset{t}) - multiset{t};
  }

  lemma WithoutAt(b: seq<Shape>, k: nat)
    requires k < |b|
    ensures b == (b[..k] + [b[k]]) + b[k + 1..]
    ensures multiset(b) == multiset(b[..k] + b[k + 1..]) + multiset{b[k]}
  {
    assert b == (b[..k] + [b[k]]) + b[k + 1..];
  }

  lemma MoveOut(c: seq<Shape>, t: Shape, d: seq<Shape>, made: set<PsiTreeNode>)
    ensures var b := (c + [t]) + d;
            && multiset(FrontierOf(b, made)) == multiset(FrontierOf(c + d, made)) + multiset(FrontierOf([t], made))
            && multiset(LeavesOf(b)) == multiset(LeavesOf(c + d)) + multiset(LeavesOf([t]))
            && NodesOf(b) == NodesOf(c + d) + NodesOf([t])
            && (BranchingAll(b) <==> BranchingAll(c + d) && BranchingAll([t]))
  {
    hide FrontierOf, LeavesOf, NodesOf, BranchingAll;
    FrontierConcat(c + [t], d, made);
    FrontierConcat(c, [t], made);
    FrontierConcat(c, d, made);
    LeavesConcat(c + [t], d);
    LeavesConcat(c, [t]);
    LeavesConcat(c, d);
    NodesConcat(c + [t], d);
    NodesConcat(c, [t]);
    NodesConcat(c, d);
    BranchingConcat(c + [t], d);
    BranchingConcat(c, [t]);
    BranchingConcat(c, d);
  }

  lemma BranchingConcat(a: seq<Shape>, b: seq<Shape>)
    ensures BranchingAll(a + b) <==> BranchingAll(a) && BranchingAll(b)
  {
    var c := a + b;
    assert forall k :: 0 <= k < |a| ==> c[k] == a[k];
    assert forall k :: 0 <= k < |b| ==> c[|a| + k] == b[k];
    if BranchingAll(c) {
      forall k | 0 <= k < |b| ensures Branching(b[k]) { assert Branching(c[|a| + k]); }
    }
  }

  /** The trivial graft. */
  lemma {:induction false} GraftSelf(ts: seq<Shape>)
    requires SeparateAll(ts)
    ensures Grafted(ts, ts, {})
  {
    NoCut(ts);
  }

  lemma {:induction false} NoCut(ts: seq<Shape>)
    ensures FrontierOf(ts, {}) == ts
  {
    if ts == [] {
    } else {
      NoCut(ts[..|ts| - 1]);
    }
  }

  /** Grafts over disjoint inputs sit side by side. */
  lemma GraftConcat(gs: seq<Shape>, ts: seq<Shape>, made: set<PsiTreeNode>,
                    hs: seq<Shape>, us: seq<Shape>, more: set<PsiTreeNode>)
    requires Grafted(gs, ts, made) && Grafted(hs, us, more) && SeparateAll(ts + us)
    requires made !! more && made !! NodesOf(us) && more !! NodesOf(ts)
    ensures Grafted(gs + hs, ts + us, made + more)
  {
    hide SeparateAll, NodesOf, LeavesOf, FrontierOf, BranchingAll;
    SeparateConcat(ts, us);
    SeparateConcat(gs, hs);
    NodesConcat(ts, us);
    NodesConcat(gs, hs);
    LeavesConcat(gs, hs);
    LeavesConcat(ts, us);
    FrontierConcat(gs, hs, made + more);
    FrontierIgnores(gs, made, more);
    FrontierIgnores(hs, more, made);
    assert more + made == made + more;
    BranchingConcat(gs, hs);
    BranchingConcat(ts, us);
  }

  /** A graft over grafts is a graft over their inputs. */
  lemma GraftTrans(hs: seq<Shape>, gs: seq<Shape>, ts: seq<Shape>, made: set<PsiTreeNode>, more: set<PsiTreeNode>)
    requires Grafted(gs, ts, made) && Grafted(hs, gs, more)
    ensures Grafted(hs, ts, made + more)
  {
    hide SeparateAll, NodesOf, LeavesOf, FrontierOf, BranchingAll;
    OrderIrrelevant(FrontierOf(hs, more), gs, made);
    FrontierCompose(hs, made, more);
  }

  lemma GraftPermuted(gs: seq<Shape>, ts: seq<Shape>, us: seq<Shape>, made: set<PsiTreeNode>)
    requires Grafted(gs, ts, made) && multiset(ts) == multiset(us) && SeparateAll(us)
    ensures Grafted(gs, us, made)
  {
    hide SeparateAll, NodesOf, LeavesOf, FrontierOf, BranchingAll;
    OrderIrrelevant(ts, us, made);
  }

  /** Permuting a separate list keeps it separate. */
  lemma {:induction false} SeparatePermuted(a: seq<Shape>, b: seq<Shape>)
    requires multiset(a) == multiset(b) && SeparateAll(a)
    ensures SeparateAll(b)
    decreases |a|
  {
    if a == [] {
      assert |multiset(b)| == 0;
    } else {
      hide SeparateAll, NodesOf;
      var k := FindLast(a, b);
      var init, t, c, d := a[..|a| - 1], a[|a| - 1], b[..k], b[k + 1..];
      SeparateConcat(init, [t]);
      SeparatePermuted(init, c + d);
      OrderIrrelevant(init, c + d, {});
      SeparateConcat(c, d);
      NodesConcat(c, d);
      SeparateConcat(c, [t]);
      NodesConcat(c, [t]);
      SeparateConcat(c + [t], d);
    }
  }
}
