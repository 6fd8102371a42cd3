/** How the classic RAPTOR loop turns the numbers of the two clustering libraries into
    cluster labels `0..k-1`: `_get_optimal_clusters`, `_get_clusters_ahc`,
    `_adjust_tree_nodes` and the relabelling around them. */
module RaptorClusters {

  // ---------- sorted distinct labels

  ghost predicate Increasing(u: seq<nat>) {
    forall i, j :: 0 <= i < j < |u| ==> u[i] < u[j]
  }

  ghost function Distinct(ls: seq<nat>): set<nat> {
    set x | x in ls
  }

  function Insert(u: seq<nat>, x: nat): (v: seq<nat>)
    requires Increasing(u)
    ensures Increasing(v) && forall y :: y in v <==> y in u || y == x
  {
    if u == [] then [x]
    else
      var last, init := u[|u| - 1], u[..|u| - 1];
      assert u == init + [last];
      assert forall y :: y in init ==> y < last;
      if last < x then u + [x] else if last == x then u else
      var v := Insert(init, x);
      assert forall i :: 0 <= i < |v| ==> v[i] in v;
      v + [last]
  }

  /** The distinct labels in increasing order. */
  function Unique(ls: seq<nat>): (u: seq<nat>)
    ensures Increasing(u) && forall y :: y in u <==> y in ls
  {
    if ls == [] then [] else
    assert ls == ls[..|ls| - 1] + [ls[|ls| - 1]];
    Insert(Unique(ls[..|ls| - 1]), ls[|ls| - 1])
  }

  lemma {:induction false} IncreasingCount(u: seq<nat>)
    requires Increasing(u)
    ensures |Distinct(u)| == |u|
    decreases |u|
  {
    if u == [] {
    } else {
      var last, init := u[|u| - 1], u[..|u| - 1];
      IncreasingCount(init);
      assert u == init + [last];
      assert Distinct(u) == Distinct(init) + {last} && last !in Distinct(init);
    }
  }

  lemma UniqueCount(ls: seq<nat>)
    ensures |Unique(ls)| == |Distinct(ls)|
  {
    IncreasingCount(Unique(ls));
    assert Distinct(Unique(ls)) == Distinct(ls);
  }

  lemma {:induction false} SubsetCount(a: set<nat>, b: set<nat>)
    requires a <= b
    ensures |a| <= |b|
  {
    assert b == a + (b - a);
    assert |b| == |a| + |b - a|;
  }

  ghost function Below(k: nat): (s: set<nat>)
    ensures |s| == k && forall x: nat :: x in s <==> x < k
  {
    if k == 0 then {} else Below(k - 1) + {k - 1}
  }

  /** Labels below `k` take at most `k` values. */
  lemma DistinctBound(ls: seq<nat>, k: nat)
    requires forall i :: 0 <= i < |ls| ==> ls[i] < k
    ensures |Distinct(ls)| <= k
  {
    SubsetCount(Distinct(ls), Below(k));
  }

  function Position(u: seq<nat>, x: nat): (p: nat)
    requires x in u
    ensures p < |u| && u[p] == x
  {
    if u[0] == x then 0 else 1 + Position(u[1..], x)
  }

  function Relabel(ls: seq<nat>): (r: seq<nat>)
    ensures |r| == |ls| && forall i :: 0 <= i < |r| ==> r[i] == Position(Unique(ls), ls[i])
  {
    seq(|ls|, i requires 0 <= i < |ls| => Position(Unique(ls), ls[i]))
  }

  /** Two labellings group the items alike. */
  ghost predicate SameGroups(a: seq<nat>, b: seq<nat>) {
    |a| == |b| && forall i, j {:trigger a[i], a[j]} {:trigger b[i], b[j]} :: 0 <= i < |a| && 0 <= j < |a| ==>
        (a[i] == a[j] <==> b[i] == b[j])
  }

  /** Every one of the clusters `0..k-1` has a member, and every item is in one of them. */
  ghost predicate Onto(ls: seq<nat>, k: nat) {
    && (forall i :: 0 <= i < |ls| ==> ls[i] < k)
    && (forall c: nat :: c < k ==> c in ls)
  }

  lemma RelabelOnto(ls: seq<nat>)
    ensures Onto(Relabel(ls), |Unique(ls)|) && SameGroups(Relabel(ls), ls)
  {
    var u, r := Unique(ls), Relabel(ls);
    forall c: nat | c < |u| ensures c in r {
      assert u[c] in u;
      var i :| 0 <= i < |ls| && ls[i] == u[c];
      var p := r[i];
      assert r[i] == c;
    }
    forall i, j | 0 <= i < |ls| && 0 <= j < |ls| ensures r[i] == r[j] <==> ls[i] == ls[j] {
      assert u[r[i]] == ls[i] && u[r[j]] == ls[j];
    }
  }

  lemma OntoCount(ls: seq<nat>, k: nat)
    requires Onto(ls, k)
    ensures |Distinct(ls)| == k
  {
    assert Distinct(ls) == Below(k);
  }

  // ---------- agglomerative clustering

  /** The number of clusters a layer may have: the configured maximum, but at least one. */
  function Cap(maxCluster: int): (m: nat)
    ensures m >= 1 && m >= maxCluster && (m == 1 || m == maxCluster)
  {
    if maxCluster < 1 then 1 else maxCluster
  }

  /** How much the merge distance grows after merge `i`. */
  function Rise(distances: seq<real>, i: nat): real
    requires i + 1 < |distances|
  {
    distances[i + 1] - distances[i]
  }

  /** The first of the widest gaps between the first `m + 1` merge distances. */
  function WidestGap(distances: seq<real>, m: nat): (gap: nat)
    requires 1 <= m < |distances|
    ensures gap < m
    ensures forall i: nat :: i < m ==> Rise(distances, i) <= Rise(distances, gap)
    ensures forall i: nat :: i < gap ==> Rise(distances, i) < Rise(distances, gap)
  {
    if m == 1 then 0
    else
      var before := WidestGap(distances, m - 1);
      if Rise(distances, m - 1) > Rise(distances, before) then m - 1 else before
  }

  /** Number of clusters asked of the library for `n` items: the dendrogram is cut at the widest
      gap between its `n - 1` merge distances, so that exactly the merges up to the gap are kept,
      unless that makes more clusters than allowed. */
  function AhcTarget(n: nat, gap: nat, maxCluster: int): (k: nat)
    requires n >= 3 && gap < n - 2
    ensures 1 <= k < n && k <= Cap(maxCluster)
    ensures n - (gap + 1) <= maxCluster ==> n - k == gap + 1
    ensures n - (gap + 1) > maxCluster ==> k == Cap(maxCluster)
  {
    var want := n - gap - 1;
    var k := if want < maxCluster then want else maxCluster;
    if k < 1 then 1 else k
  }

  type Ward = (nat, nat) -> seq<nat>

  /** What the library returns for `n` items and `k` clusters: labels below `k`. */
  ghost predicate WardOk(ward: Ward) {
    forall n: nat, k: nat {:trigger ward(n, k)} :: k > 0 ==> |ward(n, k)| == n && forall i :: 0 <= i < n ==>
        ward(n, k)[i] < k
  }

  function Zeros(n: nat): (z: seq<nat>)
    ensures |z| == n && forall i :: 0 <= i < n ==> z[i] == 0
  {
    seq(n, i => 0)
  }

  /** The merge distances of the full dendrogram over `n` items. */
  type Distances = nat -> seq<real>

  ghost predicate DistancesOk(distances: Distances) {
    forall n: nat {:trigger distances(n)} :: n >= 1 ==> |distances(n)| == n - 1
  }

  /** The raw labels: one cluster without a choice, else those of the library for the number of
      clusters that the widest gap and the maximum allow. */
  function GetClustersAhc(n: nat, distances: Distances, maxCluster: int, ward: Ward): (ls: seq<nat>)
    requires WardOk(ward) && DistancesOk(distances)
    ensures |ls| == n && (n != 2 ==> |Distinct(ls)| < n || n <= 1)
    ensures n == 2 ==> |Distinct(ls)| == 2
    ensures n >= 3 ==> |Distinct(ls)| <= Cap(maxCluster)
    ensures n >= 3 && maxCluster >= n ==> ls == ward(n, n - (WidestGap(distances(n), n - 2) + 1))
    ensures n >= 3 && 2 <= maxCluster < n - (WidestGap(distances(n), n - 2) + 1) ==> ls == ward(n, maxCluster)
    ensures n >= 3 && maxCluster <= 1 ==> ls == Zeros(n)
  {
    if n <= 1 then Zeros(n)
    else if n == 2 then
      assert Distinct([0, 1]) == {0, 1};
      [0, 1]
    else
      var k := AhcTarget(n, WidestGap(distances(n), n - 2), maxCluster);
      if k <= 1 then DistinctBound(Zeros(n), 1); Zeros(n)
      else DistinctBound(ward(n, k), k); ward(n, k)
  }

  type Nearest = (nat, nat, nat) -> nat

  /** Which of the `u` centroids item `i` is nearest to in a given round. */
  ghost predicate NearestOk(nearest: Nearest) {
    forall r: nat, u: nat, i: nat {:trigger nearest(r, u, i)} :: u > 0 ==> nearest(r, u, i) < u
  }

  function Picks(nearest: Nearest, r: nat, u: nat, n: nat): (p: seq<nat>)
    ensures |p| == n && forall i :: 0 <= i < n ==> p[i] == nearest(r, u, i)
  {
    seq(n, i requires 0 <= i < n => nearest(r, u, i))
  }

  /** `unique[new_label_indices]`. */
  function Reassigned(u: seq<nat>, picks: seq<nat>): (ls: seq<nat>)
    requires forall i :: 0 <= i < |picks| ==> picks[i] < |u|
    ensures |ls| == |picks| && forall i :: 0 <= i < |ls| ==> ls[i] == u[picks[i]]
  {
    seq(|picks|, i requires 0 <= i < |picks| => u[picks[i]])
  }

  lemma ReassignedGroups(u: seq<nat>, picks: seq<nat>)
    requires Increasing(u) && forall i :: 0 <= i < |picks| ==> picks[i] < |u|
    ensures SameGroups(Reassigned(u, picks), picks)
    ensures Distinct(Reassigned(u, picks)) <= Distinct(u)
  {
    var ls := Reassigned(u, picks);
    forall i, j | 0 <= i < |ls| && 0 <= j < |ls| ensures ls[i] == ls[j] <==> picks[i] == picks[j] {
      if picks[i] < picks[j] { assert u[picks[i]] < u[picks[j]]; }
      if picks[j] < picks[i] { assert u[picks[j]] < u[picks[i]]; }
    }
  }

  /** `out` groups the items as some round of nearest-centroid choices does. */
  ghost predicate FromRound(out: seq<nat>, nearest: Nearest, rounds: nat) {
    exists r: nat, u: nat :: r < rounds && u > 1 && SameGroups(out, Picks(nearest, r, u, |out|))
  }

  lemma RelabelRound(before: seq<nat>, nearest: Nearest, r: nat)
    requires NearestOk(nearest) && |Unique(before)| > 1
    ensures var picks := Picks(nearest, r, |Unique(before)|, |before|);
            (forall i :: 0 <= i < |picks| ==> picks[i] < |Unique(before)|) &&
            var after := Reassigned(Unique(before), picks);
            FromRound(after, nearest, r + 1) && FromRound(Relabel(after), nearest, r + 1)
            && |Distinct(after)| <= |Distinct(before)| && |Distinct(Relabel(after))| <= |Distinct(before)|
  {
    var u := Unique(before);
    var picks := Picks(nearest, r, |u|, |before|);
    ReassignedGroups(u, picks);
    var after := Reassigned(u, picks);
    RelabelOnto(after);
    OntoCount(Relabel(after), |Unique(after)|);
    UniqueCount(after);
    assert Distinct(u) == Distinct(before);
    SubsetCount(Distinct(after), Distinct(before));
    assert SameGroups(after, Picks(nearest, r, |u|, |after|));
    assert SameGroups(Relabel(after), Picks(nearest, r, |u|, |after|));
  }

  /** The refinement loop as a function: rounds until one changes nothing, one group is left, or
      the rounds are used up. */
  ghost function Adjusted(labels: seq<nat>, nearest: Nearest, r: nat, rounds: nat): seq<nat>
    requires NearestOk(nearest)
    decreases rounds - r
  {
    var u := Unique(labels);
    if r >= rounds || |u| <= 1 then labels
    else
      var after := Reassigned(u, Picks(nearest, r, |u|, |labels|));
      if after == labels then labels else Adjusted(Relabel(after), nearest, r + 1, rounds)
  }

  /** Round `r` of nearest-centroid choices changes nothing any more. */
  ghost predicate Stays(out: seq<nat>, nearest: Nearest, r: nat)
    requires NearestOk(nearest)
  {
    Unique(out) != [] && Reassigned(Unique(out), Picks(nearest, r, |Unique(out)|, |out|)) == out
  }

  /** Refinement never makes more groups, and only ends with one group, with a round that changes
      nothing, or after the last round. */
  lemma {:induction false} AdjustedEnds(labels: seq<nat>, nearest: Nearest, r: nat, rounds: nat)
    requires NearestOk(nearest) && r <= rounds
    ensures var out := Adjusted(labels, nearest, r, rounds);
            && |out| == |labels| && |Distinct(out)| <= |Distinct(labels)|
            && (|Unique(out)| <= 1 || (exists q: nat :: r <= q < rounds && Stays(out, nearest, q))
                || FromLast(labels, out, nearest, r, rounds))
    decreases rounds - r
  {
    hide Distinct, Unique, Relabel, NearestOk, SameGroups, FromRound;
    var u := Unique(labels);
    if r >= rounds || |u| <= 1 {
    } else {
      RelabelRound(labels, nearest, r);
      var picks := Picks(nearest, r, |u|, |labels|);
      var after := Reassigned(u, picks);
      if after == labels {
        assert Stays(labels, nearest, r);
      } else {
        AdjustedEnds(Relabel(after), nearest, r + 1, rounds);
        ReassignedGroups(u, picks);
        RelabelGroups(after, picks);
        if r + 1 == rounds {
          var last: nat := rounds - 1;
          assert GroupsOf(Relabel(after), nearest, last, |u|);
        }
      }
    }
  }

  /** All rounds were used: `out` has the groups of the last one, or no round was left. */
  ghost predicate FromLast(labels: seq<nat>, out: seq<nat>, nearest: Nearest, r: nat, rounds: nat) {
    if r >= rounds then out == labels
    else
      var last: nat := rounds - 1;
      exists u: nat :: GroupsOf(out, nearest, last, u)
  }

  /** `out` groups the items as the choices of round `q` among `u` centroids do. */
  ghost predicate GroupsOf(out: seq<nat>, nearest: Nearest, q: nat, u: nat) {
    u > 1 && SameGroups(out, Picks(nearest, q, u, |out|))
  }

  lemma RelabelGroups(after: seq<nat>, picks: seq<nat>)
    requires SameGroups(after, picks)
    ensures SameGroups(Relabel(after), picks)
  {
    RelabelOnto(after);
  }

  /** Move every item to its nearest centroid, a few times: the number of groups never grows. */
  method AdjustTreeNodes(labels: seq<nat>, nearest: Nearest, maxIter: nat) returns (out: seq<nat>)
    requires NearestOk(nearest)
    ensures out == Adjusted(labels, nearest, 0, maxIter)
    ensures |out| == |labels| && |Distinct(out)| <= |Distinct(labels)|
    ensures maxIter > 0 && |Distinct(labels)| > 1 ==> FromRound(out, nearest, maxIter)
    ensures |Distinct(labels)| <= 1 ==> out == labels
  {
    out := labels;
    var r := 0;
    hide FromRound, Distinct, NearestOk, Unique, Relabel;
    while r < maxIter
      invariant r <= maxIter && |out| == |labels| && |Distinct(out)| <= |Distinct(labels)|
      invariant |Distinct(labels)| > 1 && r > 0 ==> FromRound(out, nearest, r)
      invariant r == 0 || |Distinct(labels)| <= 1 ==> out == labels
      invariant Adjusted(out, nearest, r, maxIter) == Adjusted(labels, nearest, 0, maxIter)
    {
      var u := Unique(out);
      UniqueCount(out);
      if |u| <= 1 {
        if r > 0 && |Distinct(labels)| > 1 { MoreRounds(out, nearest, r, maxIter); }
        return;
      }
      RelabelRound(out, nearest, r);
      var after := Reassigned(u, Picks(nearest, r, |u|, |out|));
      if after == out {
        MoreRounds(out, nearest, r + 1, maxIter);
        return;
      }
      out := Relabel(after);
      r := r + 1;
    }
  }

  lemma MoreRounds(out: seq<nat>, nearest: Nearest, r: nat, rounds: nat)
    requires FromRound(out, nearest, r) && r <= rounds
    ensures FromRound(out, nearest, rounds)
  {
    var q: nat, u: nat :| q < r && u > 1 && SameGroups(out, Picks(nearest, q, u, |out|));
    assert q < rounds;
  }

  /** Labels by agglomerative clustering: no cluster is empty, and from three items on there
      are fewer clusters than items, whatever the library numbers are. */
  method AhcLabels(n: nat, distances: Distances, maxCluster: int, ward: Ward, nearest: Nearest)
    returns (ls: seq<nat>, k: nat)
    requires WardOk(ward) && NearestOk(nearest) && DistancesOk(distances) && n >= 3
    ensures |ls| == n && 1 <= k < n && k <= Cap(maxCluster) && Onto(ls, k)
    ensures var adjusted := Adjusted(GetClustersAhc(n, distances, maxCluster, ward), nearest, 0, 5);
            ls == Relabel(adjusted) && k == |Unique(adjusted)|
  {
    hide Distinct, Unique, Relabel, Onto, WardOk, NearestOk, DistancesOk, FromRound;
    var raw := GetClustersAhc(n, distances, maxCluster, ward);
    var adjusted := raw;
    UniqueCount(raw);
    if |Unique(raw)| > 1 {
      adjusted := AdjustTreeNodes(raw, nearest, 5);
    }
    UniqueCount(adjusted);
    RelabelOnto(adjusted);
    SomeLabel(adjusted);
    ls, k := Relabel(adjusted), |Unique(adjusted)|;
  }

  lemma SomeLabel(ls: seq<nat>)
    ensures ls != [] ==> |Unique(ls)| >= 1
  {
    if ls != [] { assert ls[0] in Unique(ls); }
  }

  // ---------- Gaussian mixture

  /** Candidate counts are `1 .. min(maxCluster, n) - 1`; the library numbers pick one. With no
      candidate the source fails on an empty `argmin`. */
  function GmmCandidates(n: nat, maxCluster: int): (c: int)
    ensures c < maxCluster && c < n && (c + 1 == maxCluster || c + 1 == n)
  {
    (if maxCluster < n then maxCluster else n) - 1
  }

  /** First component whose probability exceeds the threshold. */
  function FirstOver(over: nat -> bool, k: nat): (c: int)
    ensures -1 <= c < k && (c == -1 <==> forall d: nat :: d < k ==> !over(d))
    ensures c != -1 ==> over(c) && forall d: nat :: d < c ==> !over(d)
  {
    FirstOverFrom(over, 0, k)
  }

  function FirstOverFrom(over: nat -> bool, from: nat, k: nat): (c: int)
    requires from <= k
    ensures c == -1 || from <= c < k
    ensures c == -1 <==> forall d: nat :: from <= d < k ==> !over(d)
    ensures c != -1 ==> over(c) && forall d: nat :: from <= d < c ==> !over(d)
    decreases k - from
  {
    if from == k then -1 else if over(from) then from else FirstOverFrom(over, from + 1, k)
  }
}
