/** The classic RAPTOR loop: cluster the newest layer, summarise every cluster, repeat. */
module ClassicRaptor {
  import opened RaptorLayers
  import opened RaptorClusters

  datatype Clustering = Gmm | Ahc

  datatype Config = Config(maxCluster: int, clustering: Clustering, maxErrors: int)

  /** Everything numerical or concurrent, told apart by the number of the layer: the chosen
      component count, the probabilities over the threshold, the merge distances, the library's
      labels, the nearest centroids, the order in which summaries complete, and the answers. */
  datatype Oracle = Oracle(
    pick: (nat, nat) -> nat,
    over: (nat, nat, nat) -> bool,
    distances: nat -> Distances,
    ward: nat -> Ward,
    nearest: nat -> Nearest,
    order: (nat, nat) -> seq<nat>,
    answer: (nat, seq<string>) -> Answer)

  ghost predicate OracleOk(o: Oracle) {
    && (forall q: nat, c: nat {:trigger o.pick(q, c)} :: c >= 1 ==> 1 <= o.pick(q, c) <= c)
    && (forall q: nat {:trigger o.distances(q)} :: DistancesOk(o.distances(q)))
    && (forall q: nat {:trigger o.ward(q)} :: WardOk(o.ward(q)))
    && (forall q: nat {:trigger o.nearest(q)} :: NearestOk(o.nearest(q)))
    && (forall q: nat, k: nat {:trigger o.order(q, k)} :: IsOrder(o.order(q, k), k))
  }

  /** `order` lists the clusters `0..k-1`, each once. */
  ghost predicate IsOrder(order: seq<nat>, k: nat) {
    && |order| == k && (forall i :: 0 <= i < k ==> order[i] < k)
    && (forall i, j :: 0 <= i < j < k ==> order[i] != order[j])
  }

  // ---------- clusters of one layer

  /** Positions of the items labelled `c`, in order, moved up by `start`. */
  function Members(ls: seq<nat>, c: nat, start: nat): (m: seq<nat>)
    ensures forall p :: p in m <==> start <= p < start + |ls| && ls[p - start] == c
    ensures forall i, j :: 0 <= i < j < |m| ==> m[i] < m[j]
  {
    if ls == [] then [] else
    var init := Members(ls[..|ls| - 1], c, start);
    assert forall i :: 0 <= i < |init| ==> init[i] in init;
    if ls[|ls| - 1] == c then init + [start + |ls| - 1] else init
  }

  ghost predicate InSome(clusters: seq<seq<nat>>, p: nat) {
    exists c :: 0 <= c < |clusters| && p in clusters[c]
  }

  /** Every position of `[start, end)` lies in exactly one cluster, and no cluster is empty. */
  ghost predicate Partition(clusters: seq<seq<nat>>, start: nat, end: nat) {
    && (forall c :: 0 <= c < |clusters| ==> clusters[c] != [])
    && (forall c, p :: 0 <= c < |clusters| && p in clusters[c] ==> start <= p < end)
    && (forall p :: start <= p < end ==> InSome(clusters, p))
    && (forall c, d, p :: 0 <= c < d < |clusters| && p in clusters[c] ==> p !in clusters[d])
  }

  ghost predicate ByLabel(clusters: seq<seq<nat>>, ls: seq<nat>, start: nat) {
    forall c :: 0 <= c < |clusters| ==> clusters[c] == Members(ls, c, start)
  }

  /** Clusters of positions by label; an empty one trips the source's assertion. */
  method SplitByLabel(ls: seq<nat>, k: nat, start: nat) returns (ok: bool, clusters: seq<seq<nat>>)
    requires forall i :: 0 <= i < |ls| ==> ls[i] < k
    ensures ok <==> Onto(ls, k)
    ensures ok ==> |clusters| == k && ByLabel(clusters, ls, start) && Partition(clusters, start, start + |ls|)
  {
    clusters := [];
    for c := 0 to k
      invariant |clusters| == c && ByLabel(clusters, ls, start)
      invariant forall d :: 0 <= d < c ==> clusters[d] != []
    {
      var m := Members(ls, c, start);
      if m == [] {
        assert c !in ls by { NotLabelled(ls, c, start); }
        return false, [];
      }
      clusters := clusters + [m];
    }
    LabelsPartition(clusters, ls, k, start);
    return true, clusters;
  }

  lemma NotLabelled(ls: seq<nat>, c: nat, start: nat)
    requires Members(ls, c, start) == []
    ensures c !in ls
  {
    forall i | 0 <= i < |ls| ensures ls[i] != c { assert start + i !in Members(ls, c, start); }
  }

  lemma LabelsPartition(clusters: seq<seq<nat>>, ls: seq<nat>, k: nat, start: nat)
    requires |clusters| == k && ByLabel(clusters, ls, start)
    requires forall i :: 0 <= i < |ls| ==> ls[i] < k
    requires forall c :: 0 <= c < k ==> clusters[c] != []
    ensures Onto(ls, k) && Partition(clusters, start, start + |ls|)
  {
    forall c: nat | c < k ensures c in ls {
      assert clusters[c][0] in clusters[c];
      assert ls[clusters[c][0] - start] == c;
    }
    forall p | start <= p < start + |ls| ensures InSome(clusters, p) {
      assert p in clusters[ls[p - start]];
    }
  }

  /** First component over the threshold for every item; an item with none fails. */
  method GmmLabels(o: Oracle, q: nat, n: nat, k: nat) returns (ok: bool, ls: seq<nat>)
    ensures ok ==> |ls| == n && forall i :: 0 <= i < n ==> ls[i] < k
    ensures ok <==> forall i: nat :: i < n ==> Reached(o, q, i, k)
    ensures ok ==> forall i: nat :: i < n ==> First(o, q, i, ls[i])
  {
    ls := [];
    for i := 0 to n
      invariant |ls| == i && forall j: nat :: j < i ==> First(o, q, j, ls[j])
      invariant forall j :: 0 <= j < i ==> ls[j] < k
      invariant forall j: nat :: j < i ==> Reached(o, q, j, k)
    {
      var f := (d: nat) => o.over(q, i, d);
      var c := FirstOver(f, k);
      if c == -1 {
        assert forall d: nat :: d < k ==> !f(d) && f(d) == o.over(q, i, d);
        assert !Reached(o, q, i, k);
        return false, [];
      }
      assert f(c) && forall d: nat :: d < c ==> !f(d) && f(d) == o.over(q, i, d);
      ls := ls + [c];
    }
    return true, ls;
  }

  ghost predicate Reached(o: Oracle, q: nat, i: nat, k: nat) {
    exists d: nat :: d < k && o.over(q, i, d)
  }

  /** `c` is the first component that item `i` is over the threshold for. */
  ghost predicate First(o: Oracle, q: nat, i: nat, c: nat) {
    o.over(q, i, c) && forall d: nat :: d < c ==> !o.over(q, i, d)
  }

  /** Component `c` is the first for some item. */
  ghost predicate Used(o: Oracle, q: nat, n: nat, c: nat) {
    exists i: nat :: i < n && First(o, q, i, c)
  }

  /** The library numbers let layer `q` be clustered: always with agglomerative clustering;
      with mixtures if there is a candidate count, every item is over some threshold, and
      every component is some item's first. */
  ghost predicate Usable(cfg: Config, o: Oracle, q: nat, n: nat) {
    n == 2 || cfg.clustering.Ahc? ||
    (GmmCandidates(n, cfg.maxCluster) >= 1 &&
     var k := o.pick(q, GmmCandidates(n, cfg.maxCluster));
     k == 1 || ((forall i: nat :: i < n ==> Reached(o, q, i, k)) && forall c: nat :: c < k ==> Used(o, q, n, c)))
  }

  lemma FirstsOnto(o: Oracle, q: nat, ls: seq<nat>, k: nat)
    requires forall i: nat :: i < |ls| ==> ls[i] < k && First(o, q, i, ls[i])
    ensures Onto(ls, k) <==> forall c: nat :: c < k ==> Used(o, q, |ls|, c)
  {
    forall c: nat | c < k ensures c in ls <==> Used(o, q, |ls|, c) {
      if c in ls {
        var i: nat :| i < |ls| && ls[i] == c;
        assert First(o, q, i, c);
      }
      if Used(o, q, |ls|, c) {
        var i: nat :| i < |ls| && First(o, q, i, c);
        assert First(o, q, i, ls[i]);
      }
    }
  }

  /** The labels the configured method gives layer `q` of `n` items, and their number. */
  ghost predicate Labelled(cfg: Config, o: Oracle, q: nat, n: nat, ls: seq<nat>, k: nat)
    requires OracleOk(o) && n >= 3
  {
    |ls| == n &&
    match cfg.clustering
    case Ahc =>
      var adjusted := Adjusted(GetClustersAhc(n, o.distances(q), cfg.maxCluster, o.ward(q)), o.nearest(q), 0, 5);
      ls == Relabel(adjusted) && k == |Unique(adjusted)|
    case Gmm =>
      GmmCandidates(n, cfg.maxCluster) >= 1 && k == o.pick(q, GmmCandidates(n, cfg.maxCluster))
      && if k == 1 then ls == Zeros(n) else forall i: nat :: i < n ==> First(o, q, i, ls[i])
  }

  lemma ZerosOnto(n: nat)
    requires n > 0
    ensures Onto(Zeros(n), 1)
  {
    assert Zeros(n)[0] == 0;
  }

  /** Labels for a layer of `n >= 3` items. Agglomerative clustering cannot fail; the mixture
      fails without a candidate count or when some item is over no threshold. */
  method LabelLayer(cfg: Config, o: Oracle, q: nat, n: nat) returns (ok: bool, ls: seq<nat>, k: nat)
    requires OracleOk(o) && n >= 3
    ensures ok ==> |ls| == n && 1 <= k < n && forall i :: 0 <= i < n ==> ls[i] < k
    ensures ok ==> k <= Cap(cfg.maxCluster)
    ensures ok ==> Labelled(cfg, o, q, n, ls, k)
    ensures Usable(cfg, o, q, n) <==> ok && Onto(ls, k)
  {
    hide Reached, First, Used;
    match cfg.clustering {
      case Ahc =>
        ls, k := AhcLabels(n, o.distances(q), cfg.maxCluster, o.ward(q), o.nearest(q));
        ok := true;
      case Gmm =>
        var c := GmmCandidates(n, cfg.maxCluster);
        if c < 1 {
          return false, [], 0;
        }
        k := o.pick(q, c);
        if k == 1 {
          ZerosOnto(n);
          return true, Zeros(n), 1;
        }
        ok, ls := GmmLabels(o, q, n, k);
        if ok { FirstsOnto(o, q, ls, k); }
    }
  }

  // ---------- summaries of one layer

  function Texts(chunks: seq<string>, idx: seq<nat>): (t: seq<string>)
    requires forall i :: 0 <= i < |idx| ==> idx[i] < |chunks|
    ensures |t| == |idx| && forall i :: 0 <= i < |t| ==> t[i] == chunks[idx[i]]
  {
    seq(|idx|, i requires 0 <= i < |idx| => chunks[idx[i]])
  }

  /** The clusters named by `order` exist and lie within the first `bound` chunks. */
  ghost predicate Within(clusters: seq<seq<nat>>, order: seq<nat>, bound: nat) {
    && (forall k :: 0 <= k < |order| ==> order[k] < |clusters|)
    && (forall c, i :: 0 <= c < |clusters| && 0 <= i < |clusters[c]| ==> clusters[c][i] < bound)
  }

  function One(a: Answer): (s: seq<string>)
    ensures |s| <= 1
  {
    match a case Good(text) => [text] case Bad => []
  }

  /** The summaries of the clusters in the order given, failed ones left out. */
  ghost function Summaries(chunks: seq<string>, clusters: seq<seq<nat>>, order: seq<nat>, q: nat,
                           o: Oracle): (s: seq<string>)
    requires Within(clusters, order, |chunks|)
    ensures |s| <= |order|
    decreases |order|
  {
    if order == [] then [] else
    var last := |order| - 1;
    Summaries(chunks, clusters, order[..last], q, o) + One(o.answer(q, Texts(chunks, clusters[order[last]])))
  }

  lemma SummariesSnoc(chunks: seq<string>, clusters: seq<seq<nat>>, order: seq<nat>, k: nat, q: nat, o: Oracle)
    requires Within(clusters, order, |chunks|) && k < |order|
    ensures Summaries(chunks, clusters, order[..k + 1], q, o) ==
            Summaries(chunks, clusters, order[..k], q, o) + One(o.answer(q, Texts(chunks, clusters[order[k]])))
  {
    assert order[..k + 1][..k] == order[..k];
  }

  /** Summaries do not notice chunks appended later. */
  lemma {:induction false} SummariesStable(chunks: seq<string>, more: seq<string>, clusters: seq<seq<nat>>,
                                           order: seq<nat>, q: nat, o: Oracle)
    requires Within(clusters, order, |chunks|)
    ensures Within(clusters, order, |chunks + more|)
    ensures Summaries(chunks + more, clusters, order, q, o) == Summaries(chunks, clusters, order, q, o)
    decreases |order|
  {
    if order == [] {
    } else {
      var last := |order| - 1;
      SummariesStable(chunks, more, clusters, order[..last], q, o);
      assert Texts(chunks + more, clusters[order[last]]) == Texts(chunks, clusters[order[last]]);
    }
  }

  lemma WithinSplit(clusters: seq<seq<nat>>, a: seq<nat>, b: seq<nat>, bound: nat)
    ensures Within(clusters, a + b, bound) <==> Within(clusters, a, bound) && Within(clusters, b, bound)
  {
    if Within(clusters, a + b, bound) {
      assert forall k :: 0 <= k < |a| ==> (a + b)[k] == a[k];
      assert forall k :: 0 <= k < |b| ==> (a + b)[|a| + k] == b[k];
    }
  }

  lemma {:induction false} SummariesConcat(chunks: seq<string>, clusters: seq<seq<nat>>, a: seq<nat>, b: seq<nat>,
                                           q: nat, o: Oracle)
    requires Within(clusters, a, |chunks|) && Within(clusters, b, |chunks|)
    ensures Within(clusters, a + b, |chunks|)
    ensures Summaries(chunks, clusters, a + b, q, o) ==
        Summaries(chunks, clusters, a, q, o) + Summaries(chunks, clusters, b, q, o)
    decreases |b|
  {
    hide Within, Summaries;
    WithinSplit(clusters, a, b, |chunks|);
    if b == [] {
      assert a + b == a;
      NoSummaries(chunks, clusters, b, q, o);
      assert b[..0] == b;
    } else {
      var last := |b| - 1;
      assert b == b[..last] + [b[last]];
      WithinSplit(clusters, b[..last], [b[last]], |chunks|);
      SummariesConcat(chunks, clusters, a, b[..last], q, o);
      assert (a + b)[..|a| + last] == a + b[..last] && (a + b)[..|a| + last + 1] == a + b && b[..last + 1] == b;
      SummariesSnoc(chunks, clusters, a + b, |a| + last, q, o);
      SummariesSnoc(chunks, clusters, b, last, q, o);
    }
  }

  /** In whatever order the clusters complete, the same summaries are produced. */
  lemma {:induction false} OrderIrrelevant(chunks: seq<string>, clusters: seq<seq<nat>>, a: seq<nat>, b: seq<nat>,
                                           q: nat, o: Oracle)
    requires Within(clusters, a, |chunks|) && Within(clusters, b, |chunks|) && multiset(a) == multiset(b)
    ensures multiset(Summaries(chunks, clusters, a, q, o)) == multiset(Summaries(chunks, clusters, b, q, o))
    decreases |a|
  {
    hide Summaries, Within;
    if a == [] {
      SameLength(a, b);
    } else {
      var init, x := a[..|a| - 1], a[|a| - 1];
      var k := PlaceOf(a, b);
      var pre, post := b[..k], b[k + 1..];
      assert a == init + [x] && b == pre + ([x] + post);
      WithinSplit(clusters, init, [x], |chunks|);
      WithinSplit(clusters, pre, [x] + post, |chunks|);
      WithinSplit(clusters, [x], post, |chunks|);
      WithinSplit(clusters, pre, post, |chunks|);
      OrderIrrelevant(chunks, clusters, init, pre + post, q, o);
      SummariesConcat(chunks, clusters, init, [x], q, o);
      SummariesConcat(chunks, clusters, pre, post, q, o);
      SummariesConcat(chunks, clusters, [x], post, q, o);
      SummariesConcat(chunks, clusters, pre, [x] + post, q, o);
    }
  }

  lemma SameLength(a: seq<nat>, b: seq<nat>)
    requires multiset(a) == multiset(b)
    ensures |a| == |b|
  {
    assert |multiset(a)| == |a| && |multiset(b)| == |b|;
  }

  lemma TakeOut(b: seq<nat>, k: nat)
    requires k < |b|
    ensures multiset(b[..k] + b[k + 1..]) == multiset(b) - multiset{b[k]}
  {
    assert b == b[..k] + [b[k]] + b[k + 1..];
    assert multiset(b) == multiset(b[..k]) + multiset{b[k]} + multiset(b[k + 1..]);
  }

  /** Where the last of `a` stands in the permutation `b`; taking both out leaves permutations. */
  lemma PlaceOf(a: seq<nat>, b: seq<nat>) returns (k: nat)
    requires a != [] && multiset(a) == multiset(b)
    ensures k < |b| && b[k] == a[|a| - 1]
    ensures multiset(a[..|a| - 1]) == multiset(b[..k] + b[k + 1..])
  {
    var last := |a| - 1;
    assert a[last] in multiset(a);
    assert a[last] in b;
    k :| 0 <= k < |b| && b[k] == a[last];
    TakeOut(a, last);
    TakeOut(b, k);
    assert a[..last] + a[last + 1..] == a[..last];
  }

  /** Summaries appended in completion order; the error that reaches the limit aborts. */
  method SummarizeClusters(su: Summarizer, chunks: seq<string>, clusters: seq<seq<nat>>, order: seq<nat>, q: nat,
                           o: Oracle)
    returns (out: seq<string>, aborted: bool)
    requires Within(clusters, order, |chunks|) && su.errorCount < su.maxErrors
    modifies su
    ensures aborted <==> old(su.errorCount) + |order| - |Summaries(chunks, clusters, order, q, o)| >= su.maxErrors
    ensures out == if aborted then chunks else chunks + Summaries(chunks, clusters, order, q, o)
    ensures !aborted ==> su.errorCount + |out| == old(su.errorCount) + |chunks| + |order|
  {
    out, aborted := chunks, false;
    hide Summaries;
    NoSummaries(chunks, clusters, order, q, o);
    for k := 0 to |order|
      invariant out == chunks + Summaries(chunks, clusters, order[..k], q, o)
      invariant su.errorCount + |out| == old(su.errorCount) + |chunks| + k && su.errorCount < su.maxErrors
    {
      SummariesSnoc(chunks, clusters, order, k, q, o);
      MissesGrow(chunks, clusters, order, k + 1, q, o);
      var idx := clusters[order[k]];
      assert Texts(out, idx) == Texts(chunks, idx);
      var r := su.Summarize(o.answer(q, Texts(out, idx)));
      if r.Aborted? {
        return chunks, true;
      }
      if r.Done? {
        out := out + [r.text];
      }
    }
    assert order[..|order|] == order;
  }

  /** Failures only add up along the completion order. */
  lemma {:induction false} MissesGrow(chunks: seq<string>, clusters: seq<seq<nat>>, order: seq<nat>, k: nat, q: nat,
                                      o: Oracle)
    requires Within(clusters, order, |chunks|) && k <= |order|
    ensures k - |Summaries(chunks, clusters, order[..k], q, o)| <= |order| - |Summaries(chunks, clusters, order, q, o)|
    decreases |order| - k
  {
    hide Summaries;
    if k == |order| {
      assert order[..k] == order;
    } else {
      SummariesSnoc(chunks, clusters, order, k, q, o);
      MissesGrow(chunks, clusters, order, k + 1, q, o);
    }
  }

  lemma NoSummaries(chunks: seq<string>, clusters: seq<seq<nat>>, order: seq<nat>, q: nat, o: Oracle)
    requires Within(clusters, order, |chunks|)
    ensures order[..0] == [] && Summaries(chunks, clusters, order[..0], q, o) == []
  {
  }

  // ---------- the layers of a whole run

  /** How one layer was made from the one before: the clusters and their completion order. */
  datatype Step = Step(clusters: seq<seq<nat>>, order: seq<nat>)

  /** Fewer clusters than positions, covering `[start, end)`, and every cluster summarised once. */
  ghost predicate Covering(s: Step, start: nat, end: nat) {
    && start <= end && Partition(s.clusters, start, end) && |s.clusters| < end - start
    && IsOrder(s.order, |s.clusters|)
  }

  lemma CoveringWithin(s: Step, start: nat, end: nat, bound: nat)
    requires Covering(s, start, end) && end <= bound
    ensures Within(s.clusters, s.order, bound) && |s.order| < end - start
  {
    forall c, i | 0 <= c < |s.clusters| && 0 <= i < |s.clusters[c]| ensures s.clusters[c][i] < bound {
      assert s.clusters[c][i] in s.clusters[c];
    }
  }

  /** Layer `b` holds the summaries of a clustering of layer `a`. */
  ghost predicate LayerFrom(out: seq<string>, a: Interval, b: Interval, s: Step, q: nat, o: Oracle) {
    && a.end <= b.start <= b.end <= |out| && Covering(s, a.start, a.end)
    && Within(s.clusters, s.order, |out|)
    && out[b.start..b.end] == Summaries(out, s.clusters, s.order, q, o)
  }

  /** Each layer is strictly narrower than the one it summarises. */
  lemma LayerShrinks(out: seq<string>, a: Interval, b: Interval, s: Step, q: nat, o: Oracle)
    requires LayerFrom(out, a, b, s, q, o)
    ensures b.start <= b.end && b.end - b.start < a.end - a.start
  {
    hide Summaries, Partition;
    assert |out[b.start..b.end]| == b.end - b.start;
  }

  /** The record of a run: intervals tile the chunk list and each layer comes from the last. */
  ghost predicate Grown(chunks: seq<string>, out: seq<string>, layers: seq<Interval>, steps: seq<Step>, o: Oracle) {
    && chunks <= out && Tiles(layers, |chunks|, |out|) && |layers| == |steps| + 1
    && forall k :: 0 <= k < |steps| ==> LayerFrom(out, layers[k], layers[k + 1], steps[k], k, o)
  }

  /** Layer `k` is at least `k` narrower than the input, so a run has no more layers than chunks. */
  lemma {:induction false} WidthsFall(chunks: seq<string>, out: seq<string>, layers: seq<Interval>, steps: seq<Step>,
                                      o: Oracle, k: nat)
    requires Grown(chunks, out, layers, steps, o) && k < |layers|
    ensures layers[k].start <= layers[k].end && layers[k].end - layers[k].start + k <= |chunks|
    decreases k
  {
    hide LayerFrom;
    if k == 0 {
      FirstLayer(layers, |chunks|, |out|);
    } else {
      WidthsFall(chunks, out, layers, steps, o, k - 1);
      assert LayerFrom(out, layers[k - 1], layers[k], steps[k - 1], k - 1, o);
      LayerShrinks(out, layers[k - 1], layers[k], steps[k - 1], k - 1, o);
    }
  }

  lemma {:induction false} FirstLayer(layers: seq<Interval>, n: nat, total: nat)
    requires Tiles(layers, n, total)
    ensures layers != [] && layers[0] == Interval(0, n)
    decreases |layers|
  {
    if |layers| <= 1 {
    } else {
      FirstLayer(layers[..|layers| - 1], n, layers[|layers| - 1].start);
    }
  }

  lemma LayerLater(out: seq<string>, more: seq<string>, a: Interval, b: Interval, s: Step, q: nat, o: Oracle)
    requires LayerFrom(out, a, b, s, q, o)
    ensures LayerFrom(out + more, a, b, s, q, o)
  {
    hide Summaries, Partition, Covering;
    SummariesStable(out, more, s.clusters, s.order, q, o);
    assert (out + more)[b.start..b.end] == out[b.start..b.end];
  }

  /** One more layer keeps the record. */
  lemma GrownSnoc(chunks: seq<string>, out: seq<string>, layers: seq<Interval>, steps: seq<Step>, o: Oracle, s: Step,
                  start: nat)
    requires Grown(chunks, out, layers, steps, o) && layers[|layers| - 1] == Interval(start, |out|)
    requires Covering(s, start, |out|)
    requires Within(s.clusters, s.order, |out|) && Summaries(out, s.clusters, s.order, |steps|, o) != []
    ensures var more := Summaries(out, s.clusters, s.order, |steps|, o);
            Grown(chunks, out + more, layers + [Interval(|out|, |out + more|)], steps + [s], o)
  {
    var q := |steps|;
    var more := Summaries(out, s.clusters, s.order, q, o);
    var layers', steps' := layers + [Interval(|out|, |out + more|)], steps + [s];
    hide Summaries, Partition, Covering, Tiles, Within;
    TilesSnoc(layers, |chunks|, |out|, |out + more|);
    forall k | 0 <= k < |steps'| ensures LayerFrom(out + more, layers'[k], layers'[k + 1], steps'[k], k, o) {
      if k < q {
        LayerLater(out, more, layers[k], layers[k + 1], steps[k], k, o);
      } else {
        SummariesStable(out, more, s.clusters, s.order, q, o);
        assert (out + more)[|out|..|out + more|] == more;
      }
    }
  }

  function Tri(n: nat): nat { if n == 0 then 0 else n + Tri(n - 1) }

  lemma {:induction false} TriClosed(n: nat)
    ensures 2 * Tri(n) == n * (n + 1)
  {
    if n == 0 {
    } else {
      TriClosed(n - 1);
    }
  }

  lemma {:induction false} TriGrows(a: nat, b: nat)
    requires a <= b
    ensures Tri(a) <= Tri(b)
    decreases b
  {
    if a >= b {
    } else {
      TriGrows(a, b - 1);
    }
  }

  datatype Status = Finished | Stalled | TooManyErrors | Crashed

  lemma PairCovering(start: nat)
    ensures Covering(Step([[start, start + 1]], [0]), start, start + 2)
  {
    var clusters := [[start, start + 1]];
    forall p | start <= p < start + 2 ensures InSome(clusters, p) {
      assert p in clusters[0];
    }
  }

  /** `s` is the clustering that labels and completion order give layer `q`. */
  ghost predicate Clustered(cfg: Config, o: Oracle, q: nat, start: nat, end: nat, s: Step)
    requires OracleOk(o) && start + 2 <= end
  {
    if end - start == 2 then s == Step([[start, start + 1]], [0])
    else exists ls, k ::
        Labelled(cfg, o, q, end - start, ls, k) && |s.clusters| == k
        && ByLabel(s.clusters, ls, start) && s.order == o.order(q, k)
  }

  /** A layer is cut into no more clusters than configured, whatever the library numbers are. */
  lemma ClustersCapped(cfg: Config, o: Oracle, q: nat, start: nat, end: nat, s: Step)
    requires OracleOk(o) && start + 2 <= end && Clustered(cfg, o, q, start, end, s)
    ensures |s.clusters| <= Cap(cfg.maxCluster)
  {
    if end - start > 2 {
      var n := end - start;
      var ls, k :| Labelled(cfg, o, q, n, ls, k) && |s.clusters| == k;
      if cfg.clustering.Ahc? {
        var raw := GetClustersAhc(n, o.distances(q), cfg.maxCluster, o.ward(q));
        AdjustedEnds(raw, o.nearest(q), 0, 5);
        UniqueCount(Adjusted(raw, o.nearest(q), 0, 5));
      }
    }
  }

  /** Every step of the run is the clustering its layer has. */
  ghost predicate AllClustered(cfg: Config, o: Oracle, layers: seq<Interval>, steps: seq<Step>)
    requires OracleOk(o) && |layers| == |steps| + 1
  {
    forall k :: 0 <= k < |steps| ==>
            layers[k].start + 2 <= layers[k].end
            && Clustered(cfg, o, k, layers[k].start, layers[k].end, steps[k])
  }

  /** No layer is cut into more clusters than allowed, and none of the summary layers has more
      entries. */
  ghost predicate Capped(cfg: Config, layers: seq<Interval>, steps: seq<Step>)
    requires |layers| == |steps| + 1
  {
    forall k :: 0 <= k < |steps| ==> CappedAt(cfg, layers, steps, k)
  }

  ghost predicate CappedAt(cfg: Config, layers: seq<Interval>, steps: seq<Step>, k: nat)
    requires |layers| == |steps| + 1 && k < |steps|
  {
    |steps[k].clusters| <= Cap(cfg.maxCluster)
    && layers[k + 1].end - layers[k + 1].start <= Cap(cfg.maxCluster)
  }

  lemma LayersCapped(chunks: seq<string>, cfg: Config, o: Oracle, out: seq<string>, layers: seq<Interval>,
                     steps: seq<Step>)
    requires OracleOk(o) && Grown(chunks, out, layers, steps, o) && AllClustered(cfg, o, layers, steps)
    ensures Capped(cfg, layers, steps)
  {
    hide OracleOk, Clustered, LayerFrom;
    forall k | 0 <= k < |steps| ensures CappedAt(cfg, layers, steps, k) {
      ClustersCapped(cfg, o, k, layers[k].start, layers[k].end, steps[k]);
      assert LayerFrom(out, layers[k], layers[k + 1], steps[k], k, o);
      LayerAtMost(out, layers[k], layers[k + 1], steps[k], k, o);
    }
  }

  /** A layer has at most one entry a cluster. */
  lemma LayerAtMost(out: seq<string>, a: Interval, b: Interval, s: Step, q: nat, o: Oracle)
    requires LayerFrom(out, a, b, s, q, o)
    ensures b.end - b.start <= |s.clusters|
  {
    hide Summaries, Partition, Within;
    assert |out[b.start..b.end]| == b.end - b.start;
  }

  /** Clusters that yielded no summary, over the whole run. */
  ghost function Missed(layers: seq<Interval>, steps: seq<Step>): int
    requires |layers| == |steps| + 1
  {
    if steps == [] then 0 else
    var last := |steps| - 1;
    Missed(layers[..last + 1], steps[..last]) + |steps[last].order| - (layers[last + 1].end - layers[last + 1].start)
  }

  lemma MissedSnoc(layers: seq<Interval>, steps: seq<Step>, i: Interval, s: Step)
    requires |layers| == |steps| + 1
    ensures Missed(layers + [i], steps + [s]) == Missed(layers, steps) + |s.order| - (i.end - i.start)
  {
    assert (layers + [i])[..|layers|] == layers && (steps + [s])[..|steps|] == steps;
  }

  lemma ClusteredSnoc(cfg: Config, o: Oracle, layers: seq<Interval>, steps: seq<Step>, i: Interval, s: Step)
    requires OracleOk(o) && |layers| == |steps| + 1 && AllClustered(cfg, o, layers, steps)
    requires var l := layers[|steps|]; l.start + 2 <= l.end && Clustered(cfg, o, |steps|, l.start, l.end, s)
    ensures AllClustered(cfg, o, layers + [i], steps + [s])
  {
    hide Clustered, OracleOk;
  }

  function Limit(cfg: Config): (m: nat)
    ensures m >= 1
  {
    if cfg.maxErrors < 1 then 1 else cfg.maxErrors
  }

  /** The clusters of one layer, or a failed run. */
  method ClusterLayer(cfg: Config, o: Oracle, q: nat, start: nat, end: nat)
    returns (ok: bool, clusters: seq<seq<nat>>, order: seq<nat>)
    requires OracleOk(o) && start + 2 <= end
    ensures ok ==> Covering(Step(clusters, order), start, end)
    ensures ok ==> Clustered(cfg, o, q, start, end, Step(clusters, order))
    ensures ok <==> Usable(cfg, o, q, end - start)
  {
    hide Partition, Onto, IsOrder, Members, Usable, Labelled, ByLabel, Clustered, Covering, OracleOk;
    if end - start == 2 {
      PairCovering(start);
      PairClustered(cfg, o, q, start);
      return true, [[start, start + 1]], [0];
    }
    clusters, order := [], [];
    var ls, k;
    ok, ls, k := LabelLayer(cfg, o, q, end - start);
    if ok {
      ok, clusters := SplitByLabel(ls, k, start);
      order := o.order(q, k);
      if ok { ClusteredIntro(cfg, o, q, start, end, ls, k, clusters); }
    }
  }

  lemma PairClustered(cfg: Config, o: Oracle, q: nat, start: nat)
    requires OracleOk(o)
    ensures Clustered(cfg, o, q, start, start + 2, Step([[start, start + 1]], [0])) && Usable(cfg, o, q, 2)
  {
  }

  lemma ClusteredIntro(cfg: Config, o: Oracle, q: nat, start: nat, end: nat, ls: seq<nat>, k: nat,
                       clusters: seq<seq<nat>>)
    requires OracleOk(o) && start + 3 <= end && Labelled(cfg, o, q, end - start, ls, k)
    requires |clusters| == k < end - start && ByLabel(clusters, ls, start) && Partition(clusters, start, end)
    ensures Clustered(cfg, o, q, start, end, Step(clusters, o.order(q, k)))
    ensures Covering(Step(clusters, o.order(q, k)), start, end)
  {
    hide Labelled, ByLabel, Partition, IsOrder;
  }

  /** The whole loop. It ends with one summary on top, with a layer that yielded nothing, with
      too many errors, or, for mixtures only, with a failed assertion. */
  method BuildClassic(chunks: seq<string>, cfg: Config, o: Oracle)
    returns (out: seq<string>, layers: seq<Interval>, status: Status, ghost steps: seq<Step>, ghost tried: Step)
    requires OracleOk(o)
    ensures Grown(chunks, out, layers, steps, o) && AllClustered(cfg, o, layers, steps)
    ensures 2 * |out| <= |chunks| * (|chunks| + 1) && |layers| <= |chunks| + 1
    ensures Capped(cfg, layers, steps)
    ensures status == Finished ==>
            layers[|steps|].end - layers[|steps|].start <= 1
            && Missed(layers, steps) < Limit(cfg)
    ensures status == Stalled || status == TooManyErrors ==> Tried(cfg, o, out, layers[|steps|], tried, |steps|)
    ensures status == Stalled ==> Summaries(out, tried.clusters, tried.order, |steps|, o) == []
                                  && Missed(layers, steps) + |tried.order| < Limit(cfg)
    ensures status == TooManyErrors ==>
              Missed(layers, steps) + |tried.order|
              - |Summaries(out, tried.clusters, tried.order, |steps|, o)| >= Limit(cfg)
    ensures status == Crashed ==>
              var l := layers[|steps|];
              l.start + 2 <= l.end
              && !Usable(cfg, o, |steps|, l.end - l.start)
  {
    hide Summaries, Covering, Tiles, Within, OracleOk, LayerFrom, Grown, Tri, Usable, Clustered, Missed, AllClustered,
         Capped;
    var su := new Summarizer(cfg.maxErrors);
    var start: nat, end: nat, n: nat := 0, |chunks|, |chunks|;
    out, layers, steps, tried := chunks, [Interval(0, n)], [], Step([], []);
    GrownStart(chunks, o);
    RecordStart(cfg, o, layers);
    TriTop(n);
    while end - start > 1
      invariant start <= end == |out| && |layers| == |steps| + 1 && layers[|steps|] == Interval(start, end)
      invariant Grown(chunks, out, layers, steps, o) && AllClustered(cfg, o, layers, steps)
      invariant Capped(cfg, layers, steps)
      invariant su.errorCount == Missed(layers, steps) < su.maxErrors == Limit(cfg)
      invariant |layers| + (end - start) <= n + 1
      invariant end > start ==> |out| + Tri(end - start - 1) <= Tri(n)
      invariant |out| <= Tri(n)
      decreases end - start
    {
      TriBound(n, |out|);
      var ok, clusters, order := ClusterLayer(cfg, o, |layers| - 1, start, end);
      if !ok {
        return out, layers, Crashed, steps, tried;
      }
      tried := Step(clusters, order);
      CoveringWithin(tried, start, end, end);
      ghost var before := out;
      var aborted;
      out, aborted := SummarizeClusters(su, out, clusters, order, |layers| - 1, o);
      if aborted {
        return out, layers, TooManyErrors, steps, tried;
      }
      if |out| == end {
        assert out == before;
        return out, layers, Stalled, steps, tried;
      }
      GrownSnoc(chunks, before, layers, steps, o, tried, start);
      ClusteredSnoc(cfg, o, layers, steps, Interval(end, |out|), tried);
      MissedSnoc(layers, steps, Interval(end, |out|), tried);
      WidthStep(n, |before|, |out| - end, end - start);
      layers := layers + [Interval(end, |out|)];
      steps := steps + [tried];
      start, end := end, |out|;
      LayersCapped(chunks, cfg, o, out, layers, steps);
    }
    TriBound(n, |out|);
    status := Finished;
  }

  /** The clustering that was being summarised when the run ended. */
  ghost predicate Tried(cfg: Config, o: Oracle, out: seq<string>, l: Interval, s: Step, q: nat)
    requires OracleOk(o)
  {
    && l.start + 2 <= l.end == |out| && Covering(s, l.start, l.end) && Clustered(cfg, o, q, l.start, l.end, s)
    && Within(s.clusters, s.order, |out|)
  }

  lemma RecordStart(cfg: Config, o: Oracle, layers: seq<Interval>)
    requires OracleOk(o) && |layers| == 1
    ensures AllClustered(cfg, o, layers, []) && Missed(layers, []) == 0 && Capped(cfg, layers, [])
  {
  }

  lemma GrownStart(chunks: seq<string>, o: Oracle)
    ensures Grown(chunks, chunks, [Interval(0, |chunks|)], [], o)
  {
  }

  lemma TriTop(n: nat)
    ensures n > 0 ==> n + Tri(n - 1) <= Tri(n)
    ensures n <= Tri(n)
  {
  }

  lemma TriBound(n: nat, m: nat)
    requires m <= Tri(n)
    ensures 2 * m <= n * (n + 1)
  {
    TriClosed(n);
  }

  /** A layer of at most `w - 1` new chunks leaves room for all narrower ones. */
  lemma WidthStep(n: nat, m: nat, w': nat, w: nat)
    requires 0 < w' < w && m + Tri(w - 1) <= Tri(n)
    ensures m + w' + Tri(w' - 1) <= Tri(n)
  {
    TriGrows(w', w - 1);
  }
}
