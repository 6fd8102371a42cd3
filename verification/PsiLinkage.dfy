/** What ranking the most similar pairs first makes of the merge: at every similarity the trees
    built so far are the groups of leaves that chains of pairs at least so similar connect. */
module PsiLinkage {
  import opened PsiForest
  import opened PsiDendrogram
  import opened PsiBuilder

  type Similarity = (nat, nat) -> real

  ghost predicate Symmetric(sim: Similarity) {
    forall u, v :: sim(u, v) == sim(v, u)
  }

  /** More similar pairs come first; ties in any order. */
  ghost predicate Descending(pairs: Pairs, sim: Similarity) {
    forall j, k :: 0 <= j < k < |pairs| ==> sim(pairs[j].0, pairs[j].1) >= sim(pairs[k].0, pairs[k].1)
  }

  /** How many pairs at the front have a similarity of at least `s`. */
  function Front(pairs: Pairs, sim: Similarity, s: real): (m: nat)
    ensures m <= |pairs|
  {
    if pairs == [] || sim(pairs[0].0, pairs[0].1) < s then 0 else 1 + Front(pairs[1..], sim, s)
  }

  lemma {:induction false} FrontCuts(pairs: Pairs, sim: Similarity, s: real, k: nat)
    requires Descending(pairs, sim) && k < |pairs|
    ensures k < Front(pairs, sim, s) <==> sim(pairs[k].0, pairs[k].1) >= s
    decreases |pairs|
  {
    if k == 0 {
    } else {
      var rest := pairs[1..];
      assert forall i, j :: 0 <= i < j < |rest| ==> rest[i] == pairs[i + 1] && rest[j] == pairs[j + 1];
      FrontCuts(rest, sim, s, k - 1);
      assert sim(pairs[0].0, pairs[0].1) >= sim(pairs[k].0, pairs[k].1);
    }
  }

  ghost predicate Close(n: nat, sim: Similarity, s: real, u: nat, v: nat) {
    u < n && v < n && (u == v || sim(u, v) >= s)
  }

  /** `p` leads from `a` to `b` by steps between leaves that are similar enough. */
  ghost predicate Chain(n: nat, sim: Similarity, s: real, p: seq<nat>, a: nat, b: nat) {
    && p != [] && p[0] == a && p[|p| - 1] == b
    && forall k :: 0 <= k < |p| - 1 ==> Close(n, sim, s, p[k], p[k + 1])
  }

  lemma CloseTouch(n: nat, pairs: Pairs, sim: Similarity, s: real, u: nat, v: nat)
    requires RanksAll(pairs, n) && Descending(pairs, sim) && Symmetric(sim)
    ensures Touch(pairs[..Front(pairs, sim, s)], u, v) ==> Close(n, sim, s, u, v)
    ensures Close(n, sim, s, u, v) && u != v ==> Touch(pairs[..Front(pairs, sim, s)], u, v)
  {
    var m := Front(pairs, sim, s);
    var front := pairs[..m];
    if Touch(front, u, v) {
      var k :| 0 <= k < m && (front[k] == (u, v) || front[k] == (v, u));
      assert pairs[k] == front[k];
      FrontCuts(pairs, sim, s, k);
    }
    if Close(n, sim, s, u, v) && u != v {
      assert Touch(pairs, if u < v then u else v, if u < v then v else u);
      var k :| 0 <= k < |pairs| && (pairs[k] == (u, v) || pairs[k] == (v, u));
      FrontCuts(pairs, sim, s, k);
      assert front[k] == pairs[k];
    }
  }

  lemma {:induction false} ChainJoined(n: nat, pairs: Pairs, sim: Similarity, s: real, p: seq<nat>, a: nat, b: nat)
    requires RanksAll(pairs, n) && Descending(pairs, sim) && Symmetric(sim) && Chain(n, sim, s, p, a, b)
    ensures Joined(pairs[..Front(pairs, sim, s)], a, b)
    decreases |p|
  {
    hide Descending, Symmetric, RanksAll, Close, Touch;
    var front := pairs[..Front(pairs, sim, s)];
    if |p| == 1 {
      assert Walk(front, [a], a, b);
    } else {
      var u := p[|p| - 2];
      var init := p[..|p| - 1];
      assert Chain(n, sim, s, init, a, u);
      ChainJoined(n, pairs, sim, s, init, a, u);
      assert Close(n, sim, s, p[|p| - 2], p[|p| - 1]);
      CloseTouch(n, pairs, sim, s, u, b);
      if u != b {
        assert Walk(front, [b], b, b);
        WalkAcross(front, a, u, b, b);
      }
    }
  }

  /** Single linkage: once all pairs of similarity at least `s` are united, two leaves are in one tree
      exactly if a chain of leaves, each at least so similar to the next, leads from one to the
      other. */
  lemma SingleLinkage(n: nat, pairs: Pairs, sim: Similarity, s: real, a: nat, b: nat)
    requires RanksAll(pairs, n) && Descending(pairs, sim) && Symmetric(sim) && a < n && b < n
    ensures InRange(pairs[..Front(pairs, sim, s)], n)
    ensures Same(Run(n, pairs[..Front(pairs, sim, s)]), a, b) <==> exists p :: Chain(n, sim, s, p, a, b)
  {
    hide Descending, Symmetric, Close, Run, Same;
    var front := pairs[..Front(pairs, sim, s)];
    assert InRange(front, n);
    Connectivity(n, front, a, b);
    if Joined(front, a, b) {
      var p :| Walk(front, p, a, b);
      forall k | 0 <= k < |p| - 1 ensures Close(n, sim, s, p[k], p[k + 1]) {
        CloseTouch(n, pairs, sim, s, p[k], p[k + 1]);
      }
      assert Chain(n, sim, s, p, a, b);
    }
    if p :| Chain(n, sim, s, p, a, b) {
      ChainJoined(n, pairs, sim, s, p, a, b);
    }
  }
}
