/** `_build_psi_layers`: summaries written bottom-up into the nodes and appended to the
    chunk list, one interval per tree layer. */
module PsiMaterialize {
  import opened PsiNodes
  import opened PsiRebalance
  import opened PsiLayers
  import opened RaptorLayers
  import opened PsiPipeline
  import PsiBuilder

  /** What the model would answer for the node with a given index when handed these texts. */
  type Answers = (nat, seq<string>) -> Answer

  // ---------- the texts a tree ends up with, as a function

  /** The text of a subtree's root: a leaf keeps its chunk, an internal node is summarised if
      some child has text and the model answers. */
  ghost function TextAt(s: Shape, chunks: seq<string>, answers: Answers): string
    decreases s, 2
  {
    if s.kids == [] then (if s.node.index < |chunks| then chunks[s.node.index] else "")
    else if Produces(s, chunks, answers) then answers(s.node.index, KidTexts(s.kids, chunks, answers)).text else ""
  }

  ghost predicate Produces(s: Shape, chunks: seq<string>, answers: Answers)
    decreases s, 1
  {
    var texts := KidTexts(s.kids, chunks, answers);
    texts != [] && answers(s.node.index, texts).Good?
  }

  /** The texts of the children that have one, in the order of the children. */
  ghost function KidTexts(ts: seq<Shape>, chunks: seq<string>, answers: Answers): (texts: seq<string>)
    ensures texts != [] <==> exists k :: 0 <= k < |ts| && TextAt(ts[k], chunks, answers) != ""
    decreases ts, 0
  {
    if ts == [] then [] else
    var first, rest := TextAt(ts[0], chunks, answers), KidTexts(ts[1..], chunks, answers);
    assert ts == [ts[0]] + ts[1..];
    (if first == "" then [] else [first]) + rest
  }

  /** The summaries of a list of internal nodes, in order, failures left out. */
  ghost function Produced(ss: seq<Shape>, chunks: seq<string>, answers: Answers): (p: seq<string>)
    ensures |p| <= |ss|
  {
    if ss == [] then [] else
    var s := ss[|ss| - 1];
    Produced(ss[..|ss| - 1], chunks, answers)
    + if Produces(s, chunks, answers) then [answers(s.node.index, KidTexts(s.kids, chunks, answers)).text] else []
  }

  /** The model is asked and does not answer. */
  ghost predicate Fails(s: Shape, chunks: seq<string>, answers: Answers) {
    var texts := KidTexts(s.kids, chunks, answers);
    texts != [] && answers(s.node.index, texts).Bad?
  }

  ghost function Failures(ss: seq<Shape>, chunks: seq<string>, answers: Answers): nat {
    if ss == [] then 0 else
    Failures(ss[..|ss| - 1], chunks, answers) + if Fails(ss[|ss| - 1], chunks, answers) then 1 else 0
  }

  /** Failures in the layers from `h` upwards, up to and with the first that yields nothing. */
  ghost function AllFailures(t: Shape, chunks: seq<string>, answers: Answers, h: nat): nat
    decreases Height(t) + 1 - h
  {
    if h > Height(t) then 0
    else
      var ss := AtHeight(Subtrees(t), h);
      Failures(ss, chunks, answers) + if Produced(ss, chunks, answers) == [] then 0
          else AllFailures(t, chunks, answers, h + 1)
  }

  lemma {:induction false} FailuresGrow(ss: seq<Shape>, k: nat, chunks: seq<string>, answers: Answers)
    requires k <= |ss|
    ensures Failures(ss[..k], chunks, answers) <= Failures(ss, chunks, answers)
    decreases |ss| - k
  {
    hide Fails;
    if k == |ss| {
      assert ss[..k] == ss;
    } else {
      assert ss[..k + 1][..k] == ss[..k];
      FailuresGrow(ss, k + 1, chunks, answers);
    }
  }

  lemma FailuresSnoc(ss: seq<Shape>, k: nat, chunks: seq<string>, answers: Answers)
    requires k < |ss|
    ensures Failures(ss[..k + 1], chunks, answers) ==
        Failures(ss[..k], chunks, answers) + if Fails(ss[k], chunks, answers) then 1 else 0
  {
    assert ss[..k + 1][..k] == ss[..k];
  }

  lemma FailuresStep(t: Shape, chunks: seq<string>, answers: Answers, h: nat)
    ensures var ss := AtHeight(Subtrees(t), h);
            AllFailures(t, chunks, answers, h) == if h > Height(t) then 0
              else Failures(ss, chunks, answers) + if Produced(ss, chunks, answers) == [] then 0
                  else AllFailures(t, chunks, answers, h + 1)
  {
  }

  /** The internal subtrees of height `h`, in post-order. */
  ghost function AtHeight(ss: seq<Shape>, h: nat): seq<Shape> {
    if ss == [] then [] else
    var s := ss[|ss| - 1];
    AtHeight(ss[..|ss| - 1], h) + if s.kids != [] && Height(s) == h then [s] else []
  }

  /** Layers from `h` upwards, up to the first that yields nothing. */
  ghost function Material(t: Shape, chunks: seq<string>, answers: Answers, h: nat): seq<string>
    decreases Height(t) + 1 - h
  {
    var p := Produced(AtHeight(Subtrees(t), h), chunks, answers);
    if h > Height(t) || p == [] then [] else p + Material(t, chunks, answers, h + 1)
  }

  lemma {:induction false} AtHeightConcat(a: seq<Shape>, b: seq<Shape>, h: nat)
    ensures AtHeight(a + b, h) == AtHeight(a, h) + AtHeight(b, h)
    decreases |b|
  {
    if b == [] {
      assert a + b == a;
    } else {
      AtHeightConcat(a, b[..|b| - 1], h);
      assert (a + b)[..|a + b| - 1] == a + b[..|b| - 1];
    }
  }

  lemma HeadsConcat(a: seq<Shape>, b: seq<Shape>)
    ensures Heads(a + b) == Heads(a) + Heads(b)
  {
  }

  /** The collected layer lists the heads of the subtrees of that height. */
  lemma {:induction false} LayerShapes(ts: seq<Shape>, h: nat)
    ensures LayerOfAll(ts, h) == Heads(AtHeight(SubtreesOf(ts), h))
    decreases ts
  {
    hide Height, Heads;
    if ts == [] {
      assert AtHeight([], h) == [];
      NoHeads();
    } else {
      var init, t := ts[..|ts| - 1], ts[|ts| - 1];
      LayerShapes(init, h);
      LayerShapes(t.kids, h);
      AtHeightConcat(SubtreesOf(init), Subtrees(t), h);
      AtHeightConcat(SubtreesOf(t.kids), [t], h);
      AtHeightOne(t, h);
      HeadsConcat(AtHeight(SubtreesOf(init), h), AtHeight(Subtrees(t), h));
      HeadsConcat(AtHeight(SubtreesOf(t.kids), h), AtHeight([t], h));
    }
  }

  lemma NoHeads()
    ensures Heads([]) == []
  {
  }

  lemma AtHeightOne(t: Shape, h: nat)
    ensures AtHeight([t], h) == if t.kids != [] && Height(t) == h then [t] else []
    ensures Heads(AtHeight([t], h)) == if t.kids != [] && Height(t) == h then [t.node] else []
  {
    assert [t][..0] == [];
  }

  lemma {:induction false} AtHeightMembers(ss: seq<Shape>, h: nat, s: Shape)
    ensures s in AtHeight(ss, h) <==> s in ss && s.kids != [] && Height(s) == h
    decreases |ss|
  {
    hide Height;
    if ss == [] {
    } else {
      var init, last := ss[..|ss| - 1], ss[|ss| - 1];
      AtHeightMembers(init, h, s);
      assert ss == init + [last];
    }
  }

  // ---------- one layer

  /** The texts in the heap: leaves, nodes below height `h` and those in `done` carry their
      final text, all other nodes are blank. */
  ghost predicate Written(t: Shape, chunks: seq<string>, answers: Answers, h: nat, done: seq<Shape>)
    reads Nodes(t)`text
  {
    forall s :: s in Subtrees(t) ==>
      (s.node in Nodes(t)
       && s.node.text == if s.kids == [] || Height(s) < h || s in done then TextAt(s, chunks, answers) else "")
  }

  function NonEmptyTexts(kids: seq<PsiTreeNode>): (texts: seq<string>)
    reads (set x | x in kids)`text
    ensures texts != [] <==> exists k :: 0 <= k < |kids| && kids[k].text != ""
  {
    if kids == [] then [] else
    (if kids[0].text != "" then [kids[0].text] else []) + NonEmptyTexts(kids[1..])
  }

  /** Summarise one internal node from the texts of its children, if some child has text. */
  method SummarizeNode(su: Summarizer, x: PsiTreeNode, answers: Answers) returns (r: Outcome)
    modifies su, x`text
    ensures var texts := old(NonEmptyTexts(x.children));
            r.Done? <==> texts != [] && answers(x.index, texts).Good?
    ensures r.Done? ==> r.text == answers(x.index, old(NonEmptyTexts(x.children))).text
    ensures x.text == if r.Done? then r.text else old(x.text)
    ensures var texts := old(NonEmptyTexts(x.children));
            var failed := texts != [] && answers(x.index, texts).Bad?;
            su.errorCount == old(su.errorCount) + (if failed then 1 else 0)
            && (r.Aborted? <==> failed && su.errorCount >= su.maxErrors)
  {
    var texts := NonEmptyTexts(x.children);
    if texts == [] {
      return Skipped;
    }
    r := su.Summarize(answers(x.index, texts));
    if r.Done? {
      x.text := r.text;
    }
  }

  lemma {:induction false} WiredSubtree(ts: seq<Shape>, s: Shape)
    requires SeparateAll(ts) && WiredAll(ts) && s in SubtreesOf(ts)
    ensures s.node.children == Heads(s.kids) && Wired(s)
    decreases ts
  {
    var init, t := ts[..|ts| - 1], ts[|ts| - 1];
    assert ts == init + [t];
    WiredConcat(init, [t]);
    WiredOne(t);
    WiredKids(t);
    hide SeparateAll, WiredAll, Wired, Separate, Nodes, NodesOf;
    if s in SubtreesOf(init) { WiredSubtree(init, s); }
    else if s != t { WiredSubtree(t.kids, s); }
    WiredHeads(s);
  }

  lemma WiredHeads(s: Shape)
    ensures Wired(s) ==> s.node.children == Heads(s.kids)
  {
  }

  /** Nodes that carry their final texts hand on the texts of the children in order. */
  lemma {:induction false} TextsSeen(ts: seq<Shape>, chunks: seq<string>, answers: Answers)
    requires forall k :: 0 <= k < |ts| ==> ts[k].node.text == TextAt(ts[k], chunks, answers)
    ensures NonEmptyTexts(Heads(ts)) == KidTexts(ts, chunks, answers)
    decreases |ts|
  {
    hide TextAt;
    if ts == [] {
    } else {
      assert Heads(ts)[1..] == Heads(ts[1..]);
      TextsSeen(ts[1..], chunks, answers);
    }
  }

  /** A node of the layer sees its children's final texts, and shares its object with no
      other subtree. */
  lemma NodeReady(t: Shape, chunks: seq<string>, answers: Answers, h: nat, done: seq<Shape>, s: Shape)
    requires Separate(t) && Wired(t) && Written(t, chunks, answers, h, done)
    requires s in Subtrees(t) && s.kids != [] && Height(s) == h
    ensures s.node in Nodes(t) && s.node.children == Heads(s.kids)
    ensures NonEmptyTexts(s.node.children) == KidTexts(s.kids, chunks, answers)
    ensures forall s' :: s' in Subtrees(t) && s'.node == s.node ==> s' == s
  {
    hide Separate, Wired, Nodes, TextAt, Subtrees, KidTexts, NonEmptyTexts;
    SubtreesSingle(t);
    RootParts(t);
    WiredSingle(t);
    WiredSubtree([t], s);
    forall k | 0 <= k < |s.kids| ensures s.kids[k].node.text == TextAt(s.kids[k], chunks, answers) {
      KidIsSubtree([t], s, k);
      ChildrenLower(s, k);
    }
    TextsSeen(s.kids, chunks, answers);
    forall s' | s' in Subtrees(t) && s'.node == s.node ensures s' == s { SubtreeUnique([t], s', s); }
  }

  lemma ProducedSnoc(ss: seq<Shape>, k: nat, chunks: seq<string>, answers: Answers)
    requires k < |ss|
    ensures Produced(ss[..k + 1], chunks, answers) ==
            Produced(ss[..k], chunks, answers) +
                if Produces(ss[k], chunks, answers)
                then [answers(ss[k].node.index, KidTexts(ss[k].kids, chunks, answers)).text] else []
  {
    assert ss[..k + 1][..k] == ss[..k];
  }

  /** Summarising the root of subtree `s` adds `s` to the finished subtrees of its layer. */
  method SummarizeSubtree(su: Summarizer, x: PsiTreeNode, answers: Answers, ghost t: Shape, ghost chunks: seq<string>,
                          ghost h: nat, ghost done: seq<Shape>, ghost s: Shape)
    returns (r: Outcome)
    requires Separate(t) && Wired(t) && Written(t, chunks, answers, h, done)
    requires s in Subtrees(t) && s.kids != [] && Height(s) == h && x == s.node && x in Nodes(t)
    modifies su, x`text
    ensures su.errorCount == old(su.errorCount) + if Fails(s, chunks, answers) then 1 else 0
    ensures r.Aborted? <==> Fails(s, chunks, answers) && su.errorCount >= su.maxErrors
    ensures !r.Aborted? ==> Written(t, chunks, answers, h, done + [s])
    ensures !r.Aborted? ==> (r.Done? <==> Produces(s, chunks, answers))
    ensures r.Done? ==> r.text == answers(x.index, KidTexts(s.kids, chunks, answers)).text
    ensures Wired(t)
  {
    hide Separate, Wired, Nodes, Height, KidTexts, NonEmptyTexts, Subtrees, TextAt;
    NodeReady(t, chunks, answers, h, done, s);
    InternalText(s, chunks, answers);
    assert allocated(Nodes(t));
    r := SummarizeNode(su, x, answers);
  }

  lemma InternalText(s: Shape, chunks: seq<string>, answers: Answers)
    requires s.kids != []
    ensures TextAt(s, chunks, answers) ==
            if Produces(s, chunks, answers) then answers(s.node.index, KidTexts(s.kids, chunks, answers)).text else ""
  {
  }

  /** A finished layer moves the boundary up by one. */
  lemma LayerWritten(t: Shape, chunks: seq<string>, answers: Answers, h: nat, ss: seq<Shape>)
    requires Written(t, chunks, answers, h, ss) && ss == AtHeight(Subtrees(t), h)
    ensures Written(t, chunks, answers, h + 1, [])
  {
    hide TextAt, Subtrees, Height, Nodes, AtHeight;
    forall s | s in Subtrees(t)
      ensures s.node in Nodes(t)
      ensures s.node.text == if s.kids == [] || Height(s) < h + 1 || s in [] then TextAt(s, chunks, answers) else "" {
      AtHeightMembers(Subtrees(t), h, s);
    }
  }

  /** One tree layer: every node summarised or skipped, the summaries in node order. */
  method SummarizeLayer(su: Summarizer, nodes: seq<PsiTreeNode>, answers: Answers, ghost t: Shape,
                        ghost chunks: seq<string>, ghost h: nat)
    returns (texts: seq<string>, aborted: bool)
    requires Separate(t) && Wired(t) && Written(t, chunks, answers, h, [])
    requires nodes == Heads(AtHeight(Subtrees(t), h)) && su.errorCount < su.maxErrors
    modifies su, Nodes(t)`text
    ensures aborted <==> old(su.errorCount) + Failures(AtHeight(Subtrees(t), h), chunks, answers) >= su.maxErrors
    ensures !aborted ==> su.errorCount == old(su.errorCount) + Failures(AtHeight(Subtrees(t), h), chunks, answers)
    ensures !aborted ==> texts == Produced(AtHeight(Subtrees(t), h), chunks, answers)
    ensures !aborted ==> Written(t, chunks, answers, h + 1, [])
  {
    hide Separate, Wired, Nodes, Height, TextAt, Written, Subtrees, AtHeight, KidTexts, Produced, Produces, Failures,
         Fails;
    ghost var ss := AtHeight(Subtrees(t), h);
    texts, aborted := [], false;
    assert ss[..0] == [] && Produced([], chunks, answers) == [] && Failures([], chunks, answers) == 0 by {
      NoneProduced(chunks, answers);
    }
    for k := 0 to |nodes|
      invariant texts == Produced(ss[..k], chunks, answers)
      invariant Written(t, chunks, answers, h, ss[..k]) && Wired(t)
      invariant su.errorCount == old(su.errorCount) + Failures(ss[..k], chunks, answers) < su.maxErrors
    {
      FailuresSnoc(ss, k, chunks, answers);
      FailuresGrow(ss, k + 1, chunks, answers);
      AtHeightMembers(Subtrees(t), h, ss[k]);
      NodeReady(t, chunks, answers, h, ss[..k], ss[k]);
      var r := SummarizeSubtree(su, nodes[k], answers, t, chunks, h, ss[..k], ss[k]);
      if r.Aborted? {
        return [], true;
      }
      assert ss[..k + 1] == ss[..k] + [ss[k]];
      ProducedSnoc(ss, k, chunks, answers);
      if r.Done? {
        texts := texts + [r.text];
      }
    }
    assert ss[..|ss|] == ss;
    LayerWritten(t, chunks, answers, h, ss);
  }

  lemma NoneProduced(chunks: seq<string>, answers: Answers)
    ensures Produced([], chunks, answers) == [] && Failures([], chunks, answers) == 0
  {
  }

  // ---------- the tree before the first layer

  /** The leaves of a tree are the roots of its childless subtrees. */
  lemma {:induction false} LeafSubtrees(ts: seq<Shape>, x: PsiTreeNode)
    ensures x in LeavesOf(ts) <==> exists s :: s in SubtreesOf(ts) && s.kids == [] && s.node == x
    decreases ts
  {
    if ts == [] {
    } else {
      var init, t := ts[..|ts| - 1], ts[|ts| - 1];
      assert ts == init + [t];
      LeavesConcat(init, [t]);
      LeavesOne(t);
      RootParts(t);
      LeafSubtrees(init, x);
      LeafSubtrees(t.kids, x);
      NoKidsNoLeaves(t);
      hide LeavesOf, Leaves, Nodes, NodesOf;
      if x in LeavesOf(ts) {
        if x in LeavesOf(init) {
          var s :| s in SubtreesOf(init) && s.kids == [] && s.node == x;
          assert s in SubtreesOf(ts);
        } else if t.kids == [] {
          assert t in SubtreesOf(ts) && t.node == x;
        } else {
          var s :| s in SubtreesOf(t.kids) && s.kids == [] && s.node == x;
          assert s in SubtreesOf(ts);
        }
      }
    }
  }

  lemma NoKidsNoLeaves(t: Shape)
    ensures LeavesOf(t.kids) == [] <==> t.kids == []
  {
  }

  lemma HeightZero(s: Shape)
    ensures Height(s) < 1 <==> s.kids == []
  {
  }

  /** Before the first layer only the leaves carry text. */
  lemma BlankStart(t: Shape, leaves: seq<PsiTreeNode>, made: set<PsiTreeNode>, chunks: seq<string>, answers: Answers,
                   root: PsiTreeNode, max: nat)
    requires PsiTree(root, t, leaves, made, max) && LeafTexts(leaves, chunks) && NoText(made)
    ensures Written(t, chunks, answers, 1, [])
  {
    hide PsiTree, Height, Subtrees, TextAt, LeafTexts, NoText, Nodes;
    forall s | s in Subtrees(t)
      ensures s.node in Nodes(t)
      ensures s.node.text == if s.kids == [] || Height(s) < 1 || s in [] then TextAt(s, chunks, answers) else "" {
      HeightZero(s);
      Placed(root, t, leaves, made, max, s);
      if s.kids == [] { LeafText(s, leaves, chunks, answers); } else { MadeText(made, s.node); }
    }
  }

  /** Childless subtrees are the given leaves, all others head a new node. */
  lemma Placed(root: PsiTreeNode, t: Shape, leaves: seq<PsiTreeNode>, made: set<PsiTreeNode>, max: nat, s: Shape)
    requires PsiTree(root, t, leaves, made, max) && s in Subtrees(t)
    ensures s.node in Nodes(t)
    ensures if s.kids == [] then s.node in leaves else s.node in made
  {
    assert Separate(t) && multiset(Leaves(t)) == multiset(leaves) && Nodes(t) == (set x | x in leaves) + made;
    hide PsiTree, Separate, SeparateAll, Leaves, LeavesOf, Nodes, NodesOf, Subtrees, SubtreesOf;
    SubtreesSingle(t);
    LeavesOne(t);
    RootParts(t);
    SubtreeNodes([t], s);
    LeafSubtrees([t], s.node);
    assert s.node in multiset(Leaves(t)) <==> s.node in multiset(leaves);
    if s.kids != [] && s.node in leaves {
      var s' :| s' in SubtreesOf([t]) && s'.kids == [] && s'.node == s.node;
      SubtreeUnique([t], s, s');
    }
  }

  lemma {:induction false} NumberedLeaves(t: Shape, n: nat)
    requires forall s :: s in Subtrees(t) && s.kids == [] ==> s.node.index < n
    ensures LeavesNumbered(t, n)
    decreases t
  {
    forall k | 0 <= k < |t.kids| ensures LeavesNumbered(t.kids[k], n) {
      forall s | s in Subtrees(t.kids[k]) && s.kids == [] ensures s.node.index < n { SubtreeOfKid(t.kids, k, s); }
      NumberedLeaves(t.kids[k], n);
    }
  }

  lemma {:induction false} SubtreeOfKid(ts: seq<Shape>, k: nat, s: Shape)
    requires k < |ts| && s in Subtrees(ts[k])
    ensures s in SubtreesOf(ts)
    decreases |ts|
  {
    if k < |ts| - 1 { SubtreeOfKid(ts[..|ts| - 1], k, s); }
  }

  lemma TreeNumbered(root: PsiTreeNode, t: Shape, leaves: seq<PsiTreeNode>, made: set<PsiTreeNode>,
                     chunks: seq<string>, max: nat)
    requires PsiTree(root, t, leaves, made, max) && LeafTexts(leaves, chunks)
    ensures LeavesNumbered(t, |chunks|)
  {
    hide PsiTree, Subtrees;
    forall s | s in Subtrees(t) && s.kids == [] ensures s.node.index < |chunks| {
      Placed(root, t, leaves, made, max, s);
    }
    NumberedLeaves(t, |chunks|);
  }

  lemma MadeText(made: set<PsiTreeNode>, x: PsiTreeNode)
    requires NoText(made) && x in made
    ensures x.text == ""
  {
  }

  lemma LeafText(s: Shape, leaves: seq<PsiTreeNode>, chunks: seq<string>, answers: Answers)
    requires LeafTexts(leaves, chunks) && s.kids == [] && s.node in leaves
    ensures s.node.text == TextAt(s, chunks, answers)
  {
    var k :| 0 <= k < |leaves| && leaves[k] == s.node;
  }

  // ---------- how much is produced

  /** No more summaries than internal nodes in the layers still to come. */
  lemma {:induction false} MaterialBound(t: Shape, chunks: seq<string>, answers: Answers, h: nat)
    requires 1 <= h <= Height(t) + 1
    ensures |Material(t, chunks, answers, h)| + Upto(t, h - 1) <= Upto(t, Height(t))
    decreases Height(t) + 1 - h
  {
    hide Height, LayerOf, AtHeight, Produced;
    UptoGrows(t, h - 1, Height(t));
    if h > Height(t) {
    } else {
      MaterialBound(t, chunks, answers, h + 1);
      LayerShapes([t], h);
      LayerSingle(t, h);
      SubtreesSingle(t);
    }
  }

  lemma {:induction false} UptoGrows(t: Shape, a: nat, b: nat)
    requires a <= b
    ensures Upto(t, a) <= Upto(t, b)
    decreases b
  {
    if a >= b {
    } else {
      UptoGrows(t, a, b - 1);
    }
  }

  /** The summary layers of an `n`-leaf tree add at most `n - 1` chunks. */
  lemma MaterialTotal(t: Shape, chunks: seq<string>, answers: Answers)
    requires Branching(t)
    ensures |Material(t, chunks, answers, 1)| + 1 <= |Leaves(t)|
  {
    MaterialBound(t, chunks, answers, 1);
    LayersTotal(t, Height(t));
    InternalBound(t);
  }

  // ---------- when nothing fails

  ghost predicate AllAnswer(chunks: seq<string>, answers: Answers) {
    && (forall k :: 0 <= k < |chunks| ==> chunks[k] != "")
    && (forall i, texts :: answers(i, texts).Good? && answers(i, texts).text != "")
  }

  ghost predicate LeavesNumbered(t: Shape, n: nat) {
    (t.kids == [] ==> t.node.index < n) && forall k :: 0 <= k < |t.kids| ==> LeavesNumbered(t.kids[k], n)
  }

  lemma {:induction false} FullText(s: Shape, chunks: seq<string>, answers: Answers)
    requires AllAnswer(chunks, answers) && LeavesNumbered(s, |chunks|)
    ensures TextAt(s, chunks, answers) != ""
    ensures s.kids != [] ==> Produces(s, chunks, answers)
    decreases s
  {
    if s.kids == [] {
    } else {
      FullText(s.kids[0], chunks, answers);
      InternalText(s, chunks, answers);
    }
  }

  lemma {:induction false} SubtreeNumbered(ts: seq<Shape>, s: Shape, n: nat)
    requires s in SubtreesOf(ts) && forall k :: 0 <= k < |ts| ==> LeavesNumbered(ts[k], n)
    ensures LeavesNumbered(s, n)
    decreases ts
  {
    var init, t := ts[..|ts| - 1], ts[|ts| - 1];
    if s in SubtreesOf(init) { SubtreeNumbered(init, s, n); }
    else if s != t { SubtreeNumbered(t.kids, s, n); }
  }

  lemma {:induction false} FullLayer(ss: seq<Shape>, chunks: seq<string>, answers: Answers)
    requires AllAnswer(chunks, answers)
    requires forall k :: 0 <= k < |ss| ==> ss[k].kids != [] && LeavesNumbered(ss[k], |chunks|)
    ensures |Produced(ss, chunks, answers)| == |ss|
    decreases |ss|
  {
    if ss == [] {
    } else {
      FullLayer(ss[..|ss| - 1], chunks, answers);
      FullText(ss[|ss| - 1], chunks, answers);
    }
  }

  /** If no summary fails, every internal node yields exactly one. */
  lemma MaterialFull(t: Shape, chunks: seq<string>, answers: Answers)
    requires AllAnswer(chunks, answers) && LeavesNumbered(t, |chunks|)
    ensures |Material(t, chunks, answers, 1)| == Internal(t)
  {
    MaterialFullFrom(t, chunks, answers, 1);
    LayersTotal(t, Height(t));
  }

  lemma {:induction false} MaterialFullFrom(t: Shape, chunks: seq<string>, answers: Answers, h: nat)
    requires AllAnswer(chunks, answers) && LeavesNumbered(t, |chunks|) && 1 <= h <= Height(t) + 1
    ensures |Material(t, chunks, answers, h)| + Upto(t, h - 1) == Upto(t, Height(t))
    decreases Height(t) + 1 - h
  {
    hide Height, LayerOf, AtHeight, Produced, AllAnswer, LeavesNumbered;
    if h > Height(t) {
    } else {
      MaterialFullFrom(t, chunks, answers, h + 1);
      FullLayerOf(t, chunks, answers, h);
      LayersContiguous(t, h);
    }
  }

  lemma LayerNumbered(t: Shape, h: nat, n: nat)
    requires LeavesNumbered(t, n)
    ensures var ss := AtHeight(Subtrees(t), h); forall k :: 0 <= k < |ss| ==>
        ss[k].kids != [] && LeavesNumbered(ss[k], n)
  {
    hide Height, AtHeight, LeavesNumbered, Subtrees, SubtreesOf;
    SubtreesSingle(t);
    var ss := AtHeight(Subtrees(t), h);
    forall k | 0 <= k < |ss| ensures ss[k].kids != [] && LeavesNumbered(ss[k], n) {
      AtHeightMembers(Subtrees(t), h, ss[k]);
      SubtreeNumbered([t], ss[k], n);
    }
  }

  lemma FullLayerOf(t: Shape, chunks: seq<string>, answers: Answers, h: nat)
    requires AllAnswer(chunks, answers) && LeavesNumbered(t, |chunks|)
    ensures |Produced(AtHeight(Subtrees(t), h), chunks, answers)| == |LayerOf(t, h)|
  {
    hide Height, LayerOf, LayerOfAll, AtHeight, Produced, AllAnswer, LeavesNumbered, Subtrees, SubtreesOf;
    LayerShapes([t], h);
    LayerSingle(t, h);
    SubtreesSingle(t);
    LayerNumbered(t, h, |chunks|);
    FullLayer(AtHeight(Subtrees(t), h), chunks, answers);
  }

  lemma MaterialStep(t: Shape, chunks: seq<string>, answers: Answers, h: nat)
    requires h <= Height(t)
    ensures var p := Produced(AtHeight(Subtrees(t), h), chunks, answers);
            Material(t, chunks, answers, h) == if p == [] then [] else p + Material(t, chunks, answers, h + 1)
  {
  }

  lemma MaterialEnd(t: Shape, chunks: seq<string>, answers: Answers, h: nat)
    requires h > Height(t)
    ensures Material(t, chunks, answers, h) == []
  {
  }

  /** The collected map holds exactly the layers `1..Height`, each the nodes of its height. */
  lemma LayersReady(m: Layers, t: Shape, h: nat)
    requires Collected(map[], m, [t])
    ensures h in m <==> 1 <= h <= Height(t)
    ensures h in m ==> m[h] == Heads(AtHeight(Subtrees(t), h))
  {
    hide Height, LayerOf, LayerOfAll, AtHeight, Heads, Subtrees;
    assert Layer(m, h) == Layer(map[], h) + LayerOfAll([t], h);
    LayerSingle(t, h);
    LayersContiguous(t, h);
    LayerShapes([t], h);
    SubtreesSingle(t);
  }

  // ---------- the whole pass

  /** Layer `k` of the result holds the summaries of the nodes of height `k`, in their order. */
  ghost predicate LayerTexts(t: Shape, chunks: seq<string>, answers: Answers, layers: seq<Interval>,
                             out: seq<string>) {
    forall k: nat :: 1 <= k < |layers| ==>
        layers[k].start <= layers[k].end <= |out|
        && out[layers[k].start..layers[k].end] == Produced(AtHeight(Subtrees(t), k), chunks, answers)
  }

  lemma FirstTexts(t: Shape, chunks: seq<string>, answers: Answers, layers: seq<Interval>, out: seq<string>)
    requires |layers| == 1
    ensures LayerTexts(t, chunks, answers, layers, out)
  {
  }

  lemma LayerTextsSnoc(t: Shape, chunks: seq<string>, answers: Answers, layers: seq<Interval>, out: seq<string>,
                       texts: seq<string>)
    requires LayerTexts(t, chunks, answers, layers, out)
    requires texts == Produced(AtHeight(Subtrees(t), |layers|), chunks, answers)
    ensures LayerTexts(t, chunks, answers, layers + [Interval(|out|, |out| + |texts|)], out + texts)
  {
    hide Produced, AtHeight, Subtrees;
    var all, more := layers + [Interval(|out|, |out| + |texts|)], out + texts;
    forall k: nat | 1 <= k < |all|
      ensures all[k].start <= all[k].end <= |more|
              && more[all[k].start..all[k].end] == Produced(AtHeight(Subtrees(t), k), chunks, answers) {
      if k < |layers| {
        assert more[all[k].start..all[k].end] == out[layers[k].start..layers[k].end];
      } else {
        assert more[|out|..|out| + |texts|] == texts;
      }
    }
  }

  /** Layer by layer from the leaves up, stopping at the first layer without a summary. */
  method MaterializeLayers(su: Summarizer, collected: Layers, n: nat, chunks: seq<string>, answers: Answers,
                           ghost t: Shape)
    returns (out: seq<string>, layers: seq<Interval>, aborted: bool)
    requires Separate(t) && Wired(t) && Written(t, chunks, answers, 1, []) && Collected(map[], collected, [t])
    requires n == |chunks| && su.errorCount < su.maxErrors
    modifies su, Nodes(t)`text
    ensures aborted <==> old(su.errorCount) + AllFailures(t, chunks, answers, 1) >= su.maxErrors
    ensures !aborted ==> out == chunks + Material(t, chunks, answers, 1)
    ensures !aborted ==> Tiles(layers, n, |out|) && |layers| <= Height(t) + 1
    ensures !aborted ==> LayerTexts(t, chunks, answers, layers, out)
  {
    hide Separate, Wired, Nodes, Height, TextAt, Written, Subtrees, AtHeight, Produced, Collected, Material, Heads,
         Tiles, Failures, AllFailures, LayerTexts;
    out, layers, aborted := chunks, [Interval(0, n)], false;
    FirstTile(n);
    FirstTexts(t, chunks, answers, layers, out);
    var h := 1;
    LayersReady(collected, t, h);
    while h in collected
      invariant 1 <= h <= Height(t) + 1 && (h in collected <==> h <= Height(t))
      invariant Written(t, chunks, answers, h, []) && Wired(t)
      invariant out + Material(t, chunks, answers, h) == chunks + Material(t, chunks, answers, 1)
      invariant Tiles(layers, n, |out|) && |layers| == h && LayerTexts(t, chunks, answers, layers, out)
      invariant su.errorCount + AllFailures(t, chunks, answers, h) ==
          old(su.errorCount) + AllFailures(t, chunks, answers, 1)
      invariant su.errorCount < su.maxErrors
      decreases Height(t) + 1 - h
    {
      LayersReady(collected, t, h);
      LayersReady(collected, t, h + 1);
      MaterialStep(t, chunks, answers, h);
      FailuresStep(t, chunks, answers, h);
      assert allocated(Nodes(t));
      var texts;
      texts, aborted := SummarizeLayer(su, collected[h], answers, t, chunks, h);
      if aborted {
        return;
      }
      if texts == [] {
        return;
      }
      TilesSnoc(layers, n, |out|, |out| + |texts|);
      LayerTextsSnoc(t, chunks, answers, layers, out, texts);
      layers := layers + [Interval(|out|, |out| + |texts|)];
      out := out + texts;
      h := h + 1;
    }
    MaterialEnd(t, chunks, answers, h);
    FailuresStep(t, chunks, answers, h);
  }

  lemma FirstTile(n: nat)
    ensures Tiles([Interval(0, n)], n, n)
  {
  }

  /** The tree over `n` chunks and what it turns into: intervals that tile the chunk list,
      summaries exactly as the tree and the answers dictate, fewer of them than chunks. */
  method BuildPsiLayers(chunks: seq<string>, l: PsiBuilder.Limits, maxCluster: int, o: PsiBuilder.Oracle,
                        answers: Answers, maxErrors: int)
    returns (out: seq<string>, layers: seq<Interval>, aborted: bool, ghost t: Shape, ghost leaves: seq<PsiTreeNode>,
        ghost h: Origin)
    requires chunks != [] && PsiBuilder.LimitsOk(l) && PsiBuilder.OracleOk(o)
    ensures Branching(t) && FanoutAtMost(t, MaxChildren(maxCluster)) && |Leaves(t)| == |chunks|
    ensures LeafOrder(leaves, |chunks|) && Stems(t, leaves, l, o, MaxChildren(maxCluster), h)
    ensures aborted <==> AllFailures(t, chunks, answers, 1) >= if maxErrors < 1 then 1 else maxErrors
    ensures !aborted ==> out == chunks + Material(t, chunks, answers, 1)
    ensures !aborted ==> Tiles(layers, |chunks|, |out|) && |out| <= 2 * |chunks| - 1
    ensures !aborted ==> |layers| <= Height(t) + 1 && LayerTexts(t, chunks, answers, layers, out)
    ensures LeavesNumbered(t, |chunks|)
  {
    hide AllFailures, LeavesNumbered, PsiTree, Written, LeafTexts, NoText, Material, Height, Collected, Leaves,
         Branching, FanoutAtMost, Tiles, Separate, Wired, Nodes, Stems, LayerTexts;
    var su := new Summarizer(maxErrors);
    var root, ls;
    ghost var made;
    root, ls, t, made, h := BuildPsiStructure(chunks, l, maxCluster, o);
    leaves := ls;
    assert LeafOrder(leaves, |chunks|) by { LeafIndices(leaves, chunks); }
    TreeParts(root, t, leaves, made, MaxChildren(maxCluster));
    BlankStart(t, leaves, made, chunks, answers, root, MaxChildren(maxCluster));
    EmptyMap();
    assert allocated(Nodes(t));
    var height, collected := CollectLayers(root, map[], t);
    MaterialTotal(t, chunks, answers);
    TreeNumbered(root, t, leaves, made, chunks, MaxChildren(maxCluster));
    out, layers, aborted := MaterializeLayers(su, collected, |chunks|, chunks, answers, t);
  }

  /** Leaf `k` has index `k`. */
  ghost predicate LeafOrder(leaves: seq<PsiTreeNode>, n: nat) {
    |leaves| == n && forall k :: 0 <= k < n ==> leaves[k].index == k
  }

  lemma LeafIndices(leaves: seq<PsiTreeNode>, chunks: seq<string>)
    requires LeafTexts(leaves, chunks)
    ensures LeafOrder(leaves, |chunks|)
  {
  }

  lemma EmptyMap()
    ensures NoEmptyLayer(map[])
  {
  }

  lemma TreeParts(root: PsiTreeNode, t: Shape, leaves: seq<PsiTreeNode>, made: set<PsiTreeNode>, max: nat)
    requires PsiTree(root, t, leaves, made, max)
    ensures t.node == root && Separate(t) && Wired(t) && Branching(t) && FanoutAtMost(t, max)
    ensures |Leaves(t)| == |leaves|
  {
    assert |multiset(Leaves(t))| == |multiset(leaves)|;
  }
}
