/** The entry point shared by both tree builders. */
module RaptorCall {
  import opened RaptorLayers
  import opened PsiMaterialize
  import PsiBuilder
  import PsiLayers
  import PsiNodes
  import ClassicRaptor

  /** A chunk as handed in; `embedded` says that it has a non-empty embedding. */
  datatype Chunk = Chunk(text: string, embedded: bool)

  datatype Builder =
    | Psi(limits: PsiBuilder.Limits, numbers: PsiBuilder.Oracle, answers: Answers)
    | Classic(clustering: ClassicRaptor.Clustering, numbers': ClassicRaptor.Oracle)

  ghost predicate BuilderOk(b: Builder) {
    match b
    case Psi(l, o, _) => PsiBuilder.LimitsOk(l) && PsiBuilder.OracleOk(o)
    case Classic(_, o) => ClassicRaptor.OracleOk(o)
  }

  /** The model answers every call, and the clustering cannot trip an assertion. */
  ghost predicate NothingFails(b: Builder) {
    match b
    case Psi(_, _, answers) => forall i, texts :: answers(i, texts).Good?
    case Classic(clustering, o) => clustering == ClassicRaptor.Ahc && forall q, texts :: o.answer(q, texts).Good?
  }

  /** The chunks that have both text and an embedding. */
  function Kept(chunks: seq<Chunk>): (k: seq<string>)
    ensures |k| <= |chunks|
    ensures forall t :: t in k <==> t != "" && Chunk(t, true) in chunks
  {
    if chunks == [] then [] else
    var c := chunks[|chunks| - 1];
    assert chunks == chunks[..|chunks| - 1] + [c];
    Kept(chunks[..|chunks| - 1]) + if c.text != "" && c.embedded then [c.text] else []
  }

  /** Order and multiplicity are kept: what a list of chunks keeps is what its parts keep, in the
      same order, and a single chunk is kept or dropped as a whole. */
  lemma {:induction false} KeptParts(a: seq<Chunk>, b: seq<Chunk>, c: Chunk)
    ensures Kept(a + b) == Kept(a) + Kept(b)
    ensures Kept([c]) == if c.text != "" && c.embedded then [c.text] else []
    decreases |b|
  {
    assert [c][..0] == [];
    if b == [] {
      assert a + b == a;
    } else {
      var init, last := b[..|b| - 1], b[|b| - 1];
      KeptParts(a, init, c);
      assert (a + b)[..|a + b| - 1] == a + init && (a + b)[|a + b| - 1] == last;
    }
  }

  method CallPsi(kept: seq<string>, l: PsiBuilder.Limits, o: PsiBuilder.Oracle, answers: Answers, maxCluster: int,
                 maxErrors: int)
    returns (out: seq<string>, layers: seq<Interval>, failed: bool)
    requires |kept| >= 2 && PsiBuilder.LimitsOk(l) && PsiBuilder.OracleOk(o)
    ensures !failed ==>
            kept <= out && Tiles(layers, |kept|, |out|) && |out| < 2 * |kept|
            && 2 * |out| <= |kept| * (|kept| + 1)
    ensures (forall i, texts :: answers(i, texts).Good?) ==> !failed
  {
    hide Tiles, AllFailures, Material, PsiBuilder.OracleOk, PsiNodes.Branching, PsiNodes.FanoutAtMost,
         PsiNodes.Leaves, PsiLayers.Height, LeavesNumbered;
    ghost var t, leaves, h;
    out, layers, failed, t, leaves, h := BuildPsiLayers(kept, l, maxCluster, o, answers, maxErrors);
    if forall i, texts :: answers(i, texts).Good? { NoFailures(t, kept, answers, 1); }
    TwiceBound(|kept|, |out|);
  }

  method CallClassic(kept: seq<string>, clustering: ClassicRaptor.Clustering, o: ClassicRaptor.Oracle,
                     maxCluster: int, maxErrors: int)
    returns (out: seq<string>, layers: seq<Interval>, failed: bool)
    requires ClassicRaptor.OracleOk(o)
    ensures !failed ==> kept <= out && Tiles(layers, |kept|, |out|) && 2 * |out| <= |kept| * (|kept| + 1)
    ensures clustering == ClassicRaptor.Ahc && (forall q, texts :: o.answer(q, texts).Good?) ==> !failed
  {
    hide Tiles, ClassicRaptor.Grown, ClassicRaptor.AllClustered, ClassicRaptor.Tried, ClassicRaptor.Missed,
         ClassicRaptor.Summaries,
         ClassicRaptor.OracleOk, ClassicRaptor.Usable;
    var status;
    ghost var steps, tried;
    var cfg := ClassicRaptor.Config(maxCluster, clustering, maxErrors);
    out, layers, status, steps, tried := ClassicRaptor.BuildClassic(kept, cfg, o);
    failed := status == ClassicRaptor.TooManyErrors || status == ClassicRaptor.Crashed;
    GrownTiles(kept, out, layers, steps, o);
    if clustering == ClassicRaptor.Ahc && (forall q, texts :: o.answer(q, texts).Good?) {
      if status == ClassicRaptor.TooManyErrors {
        NothingMissed(kept, out, layers, steps, o, |steps|);
        assert layers[..|steps| + 1] == layers && steps[..|steps|] == steps;
        TriedFull(cfg, o, out, layers[|steps|], tried, |steps|);
      } else if status == ClassicRaptor.Crashed {
        AlwaysUsable(cfg, o, |steps|, layers[|steps|].end - layers[|steps|].start);
      }
    }
  }

  lemma AlwaysUsable(cfg: ClassicRaptor.Config, o: ClassicRaptor.Oracle, q: nat, n: nat)
    requires cfg.clustering == ClassicRaptor.Ahc
    ensures ClassicRaptor.Usable(cfg, o, q, n)
  {
  }

  /** A model that always answers leaves no failures. */
  lemma {:induction false} NoFailures(t: PsiNodes.Shape, chunks: seq<string>, answers: Answers, h: nat)
    requires forall i, texts :: answers(i, texts).Good?
    ensures AllFailures(t, chunks, answers, h) == 0
    decreases PsiLayers.Height(t) + 1 - h
  {
    hide AllFailures, AtHeight;
    FailuresStep(t, chunks, answers, h);
    if h <= PsiLayers.Height(t) {
      NoneFails(AtHeight(PsiLayers.Subtrees(t), h), chunks, answers);
      NoFailures(t, chunks, answers, h + 1);
    }
  }

  lemma {:induction false} NoneFails(ss: seq<PsiNodes.Shape>, chunks: seq<string>, answers: Answers)
    requires forall i, texts :: answers(i, texts).Good?
    ensures Failures(ss, chunks, answers) == 0
    decreases |ss|
  {
    if ss == [] {
    } else {
      NoneFails(ss[..|ss| - 1], chunks, answers);
    }
  }

  lemma {:induction false} AllSummarised(chunks: seq<string>, clusters: seq<seq<nat>>, order: seq<nat>, q: nat,
                                         o: ClassicRaptor.Oracle)
    requires ClassicRaptor.Within(clusters, order, |chunks|) && forall q, texts :: o.answer(q, texts).Good?
    ensures |ClassicRaptor.Summaries(chunks, clusters, order, q, o)| == |order|
    decreases |order|
  {
    if order == [] {
    } else {
      AllSummarised(chunks, clusters, order[..|order| - 1], q, o);
    }
  }

  lemma {:induction false} NothingMissed(chunks: seq<string>, out: seq<string>, layers: seq<Interval>,
                                         steps: seq<ClassicRaptor.Step>, o: ClassicRaptor.Oracle, k: nat)
    requires ClassicRaptor.Grown(chunks, out, layers, steps, o) && k <= |steps|
    requires forall q, texts :: o.answer(q, texts).Good?
    ensures |layers| == |steps| + 1 && ClassicRaptor.Missed(layers[..k + 1], steps[..k]) == 0
    decreases k
  {
    hide ClassicRaptor.LayerFrom, Tiles;
    if k == 0 {
    } else {
      NothingMissed(chunks, out, layers, steps, o, k - 1);
      assert layers[..k + 1][..k] == layers[..k] && steps[..k][..k - 1] == steps[..k - 1];
      assert ClassicRaptor.LayerFrom(out, layers[k - 1], layers[k], steps[k - 1], k - 1, o);
      FullWidth(out, layers[k - 1], layers[k], steps[k - 1], k - 1, o);
    }
  }

  lemma FullWidth(out: seq<string>, a: Interval, b: Interval, s: ClassicRaptor.Step, q: nat, o: ClassicRaptor.Oracle)
    requires ClassicRaptor.LayerFrom(out, a, b, s, q, o) && forall q, texts :: o.answer(q, texts).Good?
    ensures b.start <= b.end && b.end - b.start == |s.order|
  {
    hide ClassicRaptor.Covering;
    AllSummarised(out, s.clusters, s.order, q, o);
    assert |out[b.start..b.end]| == b.end - b.start;
  }

  lemma TriedFull(cfg: ClassicRaptor.Config, o: ClassicRaptor.Oracle, out: seq<string>, l: Interval,
                  s: ClassicRaptor.Step, q: nat)
    requires ClassicRaptor.OracleOk(o) && ClassicRaptor.Tried(cfg, o, out, l, s, q)
    requires forall q, texts :: o.answer(q, texts).Good?
    ensures ClassicRaptor.Within(s.clusters, s.order, |out|)
    ensures |ClassicRaptor.Summaries(out, s.clusters, s.order, q, o)| == |s.order|
  {
    hide ClassicRaptor.OracleOk, ClassicRaptor.Covering, ClassicRaptor.Clustered;
    AllSummarised(out, s.clusters, s.order, q, o);
  }

  lemma TwiceBound(n: nat, m: nat)
    requires n >= 2
    ensures m <= 2 * n - 1 ==> 2 * m <= n * (n + 1)
  {
    assert n * (n + 1) >= 2 * (n + 1) by {
      assert (n - 2) * (n + 1) >= 0;
    }
    if n >= 3 { assert n * (n + 1) >= 3 * (n + 1) by { assert (n - 3) * (n + 1) >= 0; } }
    if n >= 4 { assert n * (n + 1) >= 4 * (n + 1) by { assert (n - 4) * (n + 1) >= 0; } }
  }

  lemma GrownTiles(chunks: seq<string>, out: seq<string>, layers: seq<Interval>, steps: seq<ClassicRaptor.Step>,
                   o: ClassicRaptor.Oracle)
    requires ClassicRaptor.Grown(chunks, out, layers, steps, o)
    ensures chunks <= out && Tiles(layers, |chunks|, |out|) && |layers| == |steps| + 1
  {
  }

  /** With more than one chunk handed in, a run that does not fail keeps the usable chunks in
      front, appends summaries, and returns intervals that tile the result; fewer than two
      chunks in all, usable or not, give nothing. */
  method Call(chunks: seq<Chunk>, builder: Builder, maxCluster: int, maxErrors: int)
    returns (out: seq<string>, layers: seq<Interval>, failed: bool)
    requires BuilderOk(builder)
    ensures |chunks| <= 1 ==> !failed && out == [] && layers == []
    ensures |chunks| > 1 && !failed ==> Kept(chunks) <= out && Tiles(layers, |Kept(chunks)|, |out|)
    ensures |chunks| > 1 && !failed ==> var n := |Kept(chunks)|; 2 * |out| <= n * (n + 1)
    ensures |chunks| > 1 && !failed && builder.Psi? && Kept(chunks) != [] ==> |out| < 2 * |Kept(chunks)|
    ensures |Kept(chunks)| <= 1 || NothingFails(builder) ==> !failed
  {
    if |chunks| <= 1 {
      return [], [], false;
    }
    hide Kept, Tiles, ClassicRaptor.OracleOk, PsiBuilder.OracleOk;
    var kept := Kept(chunks);
    if |kept| <= 1 {
      FirstTile(|kept|);
      return kept, [Interval(0, |kept|)], false;
    }
    match builder {
      case Psi(l, o, answers) => out, layers, failed := CallPsi(kept, l, o, answers, maxCluster, maxErrors);
      case Classic(clustering, o) => out, layers, failed := CallClassic(kept, clustering, o, maxCluster, maxErrors);
    }
  }
}
