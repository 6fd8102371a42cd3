/** `_psi_layers`: internal nodes by height, and what the layers look like. */
module PsiLayers {
  import opened PsiNodes
  import opened PsiRebalance

  ghost function Height(t: Shape): nat
    decreases t, 1
  {
    if t.kids == [] then 0 else 1 + Tallest(t.kids)
  }

  ghost function Tallest(ts: seq<Shape>): (h: nat)
    ensures forall k :: 0 <= k < |ts| ==> Height(ts[k]) <= h
    ensures ts != [] ==> exists k :: 0 <= k < |ts| && Height(ts[k]) == h
    decreases ts, 0
  {
    if ts == [] then 0 else
    var init, last := Tallest(ts[..|ts| - 1]), Height(ts[|ts| - 1]);
    assert ts == ts[..|ts| - 1] + [ts[|ts| - 1]];
    if last > init then last else init
  }

  /** The internal nodes of height `h`, in post-order. */
  ghost function LayerOf(t: Shape, h: nat): seq<PsiTreeNode>
    decreases t, 1
  {
    LayerOfAll(t.kids, h) + if t.kids != [] && Height(t) == h then [t.node] else []
  }

  ghost function LayerOfAll(ts: seq<Shape>, h: nat): seq<PsiTreeNode>
    decreases ts, 0
  {
    if ts == [] then [] else LayerOfAll(ts[..|ts| - 1], h) + LayerOf(ts[|ts| - 1], h)
  }

  type Layers = map<nat, seq<PsiTreeNode>>

  function Layer(m: Layers, h: nat): seq<PsiTreeNode> {
    if h in m then m[h] else []
  }

  ghost predicate NoEmptyLayer(m: Layers) {
    forall h {:trigger m[h]} :: h in m ==> m[h] != []
  }

  /** `m'` is `m` with the internal nodes of the trees `ts` added, layer by layer. */
  ghost predicate Collected(m: Layers, m': Layers, ts: seq<Shape>) {
    NoEmptyLayer(m') && forall h: nat {:trigger Layer(m', h)} :: Layer(m', h) == Layer(m, h) + LayerOfAll(ts, h)
  }

  lemma LayerSingle(t: Shape, h: nat)
    ensures LayerOfAll([t], h) == LayerOf(t, h)
  {
    assert [t][..0] == [];
  }

  lemma LayerSnoc(ts: seq<Shape>, t: Shape, h: nat)
    ensures LayerOfAll(ts + [t], h) == LayerOfAll(ts, h) + LayerOf(t, h)
  {
    assert (ts + [t])[..|ts + [t]| - 1] == ts;
  }

  /** Height of a node, while entering every internal node below into its layer. */
  method CollectLayers(node: PsiTreeNode, layers: Layers, ghost t: Shape) returns (h: nat, layers': Layers)
    requires Separate(t) && Wired(t) && t.node == node && NoEmptyLayer(layers)
    ensures h == Height(t) && Collected(layers, layers', [t])
    decreases t
  {
    hide Separate, Height, LayerOf, LayerOfAll, Tallest, NoEmptyLayer, Collected, Wired, Nodes;
    assert allocated(Nodes(t));
    WiredNode(t);
    LeafLayers(layers, t);
    if node.children == [] {
      return 0, layers;
    }
    var best := 0;
    layers' := layers;
    NoneCollected(layers, t);
    for k := 0 to |node.children|
      invariant best == Tallest(t.kids[..k]) && Wired(t)
      invariant NoEmptyLayer(layers') && Collected(layers, layers', t.kids[..k])
    {
      KidApart(t, k);
      var hk;
      ghost var before := layers';
      hk, layers' := CollectLayers(node.children[k], layers', t.kids[k]);
      CollectedSnoc(layers, before, layers', t.kids, k);
      if hk > best {
        best := hk;
      }
    }
    h := best + 1;
    assert t.kids[..|t.kids|] == t.kids;
    EnterLayer(layers, layers', t, h);
    layers' := layers'[h := Layer(layers', h) + [node]];
  }

  lemma KidApart(t: Shape, k: nat)
    requires Separate(t) && Wired(t) && k < |t.kids|
    ensures Separate(t.kids[k]) && Wired(t.kids[k])
    ensures k < |t.node.children| && t.node.children[k] == t.kids[k].node
  {
  }

  lemma WiredNode(t: Shape)
    requires Wired(t)
    ensures |t.node.children| == |t.kids|
  {
  }

  lemma LeafLayers(m: Layers, t: Shape)
    requires NoEmptyLayer(m)
    ensures t.kids == [] ==> Height(t) == 0 && Collected(m, m, [t])
  {
    forall h: nat ensures t.kids == [] ==> LayerOfAll([t], h) == [] { LayerSingle(t, h); }
  }

  lemma NoneCollected(m: Layers, t: Shape)
    requires NoEmptyLayer(m)
    ensures Collected(m, m, t.kids[..0]) && Tallest(t.kids[..0]) == 0
  {
    assert t.kids[..0] == [];
  }

  lemma CollectedSnoc(m: Layers, before: Layers, after: Layers, ts: seq<Shape>, k: nat)
    requires k < |ts| && Collected(m, before, ts[..k]) && Collected(before, after, [ts[k]])
    ensures NoEmptyLayer(after) && Collected(m, after, ts[..k + 1])
    ensures Tallest(ts[..k + 1]) == if Height(ts[k]) > Tallest(ts[..k]) then Height(ts[k]) else Tallest(ts[..k])
  {
    assert ts[..k + 1] == ts[..k] + [ts[k]] && ts[..k + 1][..k] == ts[..k];
    forall h: nat ensures Layer(after, h) == Layer(m, h) + LayerOfAll(ts[..k + 1], h) {
      CollectedAt(m, before, after, ts[..k], ts[k], h);
    }
  }

  lemma CollectedAt(m: Layers, before: Layers, after: Layers, ts: seq<Shape>, t: Shape, h: nat)
    requires Collected(m, before, ts) && Collected(before, after, [t])
    ensures Layer(after, h) == Layer(m, h) + LayerOfAll(ts + [t], h)
  {
    hide LayerOfAll, LayerOf, Height;
    LayerSnoc(ts, t, h);
    LayerSingle(t, h);
    assert Layer(after, h) == Layer(before, h) + LayerOfAll([t], h);
    assert Layer(before, h) == Layer(m, h) + LayerOfAll(ts, h);
  }

  lemma EnterLayer(m: Layers, after: Layers, t: Shape, h: nat)
    requires t.kids != [] && Collected(m, after, t.kids) && h == 1 + Tallest(t.kids)
    ensures h == Height(t) && Collected(m, after[h := Layer(after, h) + [t.node]], [t])
  {
    var last := after[h := Layer(after, h) + [t.node]];
    hide Height, Tallest, LayerOfAll, LayerOf, Collected, Layer, NoEmptyLayer;
    StillNoEmpty(m, after, t.kids, h, t.node);
    TallestRoot(t);
    forall g: nat ensures Layer(last, g) == Layer(m, g) + LayerOfAll([t], g) { EnterAt(m, after, t, h, g); }
    CollectedIntro(m, last, [t]);
  }

  lemma StillNoEmpty(m: Layers, after: Layers, ts: seq<Shape>, h: nat, x: PsiTreeNode)
    requires Collected(m, after, ts)
    ensures NoEmptyLayer(after[h := Layer(after, h) + [x]])
  {
  }

  lemma TallestRoot(t: Shape)
    requires t.kids != []
    ensures Height(t) == 1 + Tallest(t.kids)
  {
  }

  lemma CollectedIntro(m: Layers, m': Layers, ts: seq<Shape>)
    requires NoEmptyLayer(m')
    requires forall h: nat {:trigger Layer(m', h)} :: Layer(m', h) == Layer(m, h) + LayerOfAll(ts, h)
    ensures Collected(m, m', ts)
  {
  }

  lemma EnterAt(m: Layers, after: Layers, t: Shape, h: nat, g: nat)
    requires t.kids != [] && Collected(m, after, t.kids) && h == Height(t)
    ensures Layer(after[h := Layer(after, h) + [t.node]], g) == Layer(m, g) + LayerOfAll([t], g)
  {
    hide Height, Tallest, LayerOfAll, LayerOf;
    RootLayer(t, g);
    assert Layer(after, g) == Layer(m, g) + LayerOfAll(t.kids, g);
  }

  lemma RootLayer(t: Shape, g: nat)
    requires t.kids != []
    ensures LayerOfAll([t], g) == LayerOfAll(t.kids, g) + if g == Height(t) then [t.node] else []
  {
    LayerSingle(t, g);
  }

  // ---------- what the layers look like

  /** All subtrees, in post-order. */
  ghost function Subtrees(t: Shape): seq<Shape>
    decreases t, 1
  {
    SubtreesOf(t.kids) + [t]
  }

  ghost function SubtreesOf(ts: seq<Shape>): seq<Shape>
    decreases ts, 0
  {
    if ts == [] then [] else SubtreesOf(ts[..|ts| - 1]) + Subtrees(ts[|ts| - 1])
  }

  /** Occurrences of `x` among the roots of internal subtrees of height `h`. */
  ghost function Occurs(ss: seq<Shape>, h: nat, x: PsiTreeNode): nat {
    if ss == [] then 0 else
    Occurs(ss[..|ss| - 1], h, x) + var s := ss[|ss| - 1]; if s.kids != [] && Height(s) == h && s.node == x then 1 else 0
  }

  lemma {:induction false} OccursConcat(a: seq<Shape>, b: seq<Shape>, h: nat, x: PsiTreeNode)
    ensures Occurs(a + b, h, x) == Occurs(a, h, x) + Occurs(b, h, x)
    decreases |b|
  {
    if b == [] {
      assert a + b == a;
    } else {
      OccursConcat(a, b[..|b| - 1], h, x);
      assert (a + b)[..|a + b| - 1] == a + b[..|b| - 1];
    }
  }

  lemma CountConcat(a: seq<PsiTreeNode>, b: seq<PsiTreeNode>, x: PsiTreeNode)
    ensures multiset(a + b)[x] == multiset(a)[x] + multiset(b)[x]
  {
  }

  lemma OccursHere(t: Shape, h: nat, x: PsiTreeNode)
    ensures Occurs([t], h, x) == if t.kids != [] && Height(t) == h && t.node == x then 1 else 0
  {
    assert [t][..0] == [];
  }

  /** Layer `h` lists the internal nodes of height `h`, each as often as it occurs in the tree. */
  lemma {:induction false} LayerExact(ts: seq<Shape>, h: nat, x: PsiTreeNode)
    ensures multiset(LayerOfAll(ts, h))[x] == Occurs(SubtreesOf(ts), h, x)
    decreases ts
  {
    hide Height, Occurs, Tallest;
    if ts == [] {
      NoOccurs(h, x);
    } else {
      var init, t := ts[..|ts| - 1], ts[|ts| - 1];
      LayerExact(init, h, x);
      LayerExact(t.kids, h, x);
      OccursConcat(SubtreesOf(init), Subtrees(t), h, x);
      OccursConcat(SubtreesOf(t.kids), [t], h, x);
      OccursHere(t, h, x);
      CountConcat(LayerOfAll(init, h), LayerOf(t, h), x);
      CountConcat(LayerOfAll(t.kids, h), if t.kids != [] && Height(t) == h then [t.node] else [], x);
    }
  }

  lemma NoOccurs(h: nat, x: PsiTreeNode)
    ensures Occurs([], h, x) == 0
  {
  }

  /** In a separate list of trees every node occurs at most once, and only if it is there. */
  lemma {:induction false} OccursOnce(ts: seq<Shape>, h: nat, x: PsiTreeNode)
    requires SeparateAll(ts)
    ensures Occurs(SubtreesOf(ts), h, x) <= if x in NodesOf(ts) then 1 else 0
    decreases ts
  {
    hide Height, Occurs, Tallest, SeparateAll, NodesOf, Separate, Nodes;
    if ts == [] {
      NoOccurs(h, x);
    } else {
      var init, t := ts[..|ts| - 1], ts[|ts| - 1];
      assert ts == init + [t];
      SeparateConcat(init, [t]);
      NodesConcat(init, [t]);
      LeavesOne(t);
      RootParts(t);
      OccursOnce(init, h, x);
      OccursOnce(t.kids, h, x);
      OccursConcat(SubtreesOf(init), Subtrees(t), h, x);
      OccursConcat(SubtreesOf(t.kids), [t], h, x);
      OccursHere(t, h, x);
    }
  }

  lemma {:induction false} OccursListed(ss: seq<Shape>, s: Shape)
    requires s in ss && s.kids != []
    ensures Occurs(ss, Height(s), s.node) >= 1
    decreases |ss|
  {
    if ss[|ss| - 1] != s { OccursListed(ss[..|ss| - 1], s); }
  }

  lemma {:induction false} OccursFound(ss: seq<Shape>, h: nat, x: PsiTreeNode) returns (s: Shape)
    requires Occurs(ss, h, x) >= 1
    ensures s in ss && s.kids != [] && Height(s) == h && s.node == x
    decreases |ss|
  {
    s := ss[|ss| - 1];
    if !(s.kids != [] && Height(s) == h && s.node == x) { s := OccursFound(ss[..|ss| - 1], h, x); }
  }

  /** Every internal node is entered exactly once, in the layer of its height and in no other. */
  lemma OneLayer(t: Shape, s: Shape, h: nat)
    requires Separate(t) && s in Subtrees(t) && s.kids != []
    ensures multiset(LayerOf(t, h))[s.node] == if h == Height(s) then 1 else 0
  {
    hide Height, Occurs, Tallest, LayerOf, LayerOfAll;
    RootParts(t);
    LayerSingle(t, h);
    LayerExact([t], h, s.node);
    OccursOnce([t], h, s.node);
    SubtreesSingle(t);
    OccursListed(Subtrees(t), s);
    if h != Height(s) && Occurs(Subtrees(t), h, s.node) >= 1 {
      var s' := OccursFound(Subtrees(t), h, s.node);
      SubtreeUnique([t], s, s');
    }
  }

  lemma SubtreesSingle(t: Shape)
    ensures SubtreesOf([t]) == Subtrees(t)
  {
    assert [t][..0] == [];
  }

  lemma {:induction false} SubtreeNodes(ts: seq<Shape>, s: Shape)
    requires s in SubtreesOf(ts)
    ensures s.node in NodesOf(ts)
    decreases ts
  {
    var init, t := ts[..|ts| - 1], ts[|ts| - 1];
    assert ts == init + [t];
    hide Nodes, NodesOf;
    NodesConcat(init, [t]);
    LeavesOne(t);
    RootParts(t);
    if s in SubtreesOf(init) { SubtreeNodes(init, s); }
    else if s != t { SubtreeNodes(t.kids, s); }
  }

  /** In a separate list of trees a node determines the subtree it heads. */
  lemma {:induction false} SubtreeUnique(ts: seq<Shape>, a: Shape, b: Shape)
    requires SeparateAll(ts) && a in SubtreesOf(ts) && b in SubtreesOf(ts) && a.node == b.node
    ensures a == b
    decreases ts
  {
    var init, t := ts[..|ts| - 1], ts[|ts| - 1];
    assert ts == init + [t];
    hide Nodes, NodesOf, SeparateAll, Separate;
    SeparateConcat(init, [t]);
    LeavesOne(t);
    RootParts(t);
    if a in SubtreesOf(init) { SubtreeNodes(init, a); }
    if b in SubtreesOf(init) { SubtreeNodes(init, b); }
    if a in SubtreesOf(t.kids) { SubtreeNodes(t.kids, a); }
    if b in SubtreesOf(t.kids) { SubtreeNodes(t.kids, b); }
    if a in SubtreesOf(init) && b in SubtreesOf(init) { SubtreeUnique(init, a, b); }
    if a in SubtreesOf(t.kids) && b in SubtreesOf(t.kids) { SubtreeUnique(t.kids, a, b); }
  }

  lemma {:induction false} KidIsSubtree(ts: seq<Shape>, s: Shape, k: nat)
    requires s in SubtreesOf(ts) && k < |s.kids|
    ensures s.kids[k] in SubtreesOf(ts)
    decreases ts
  {
    var init, t := ts[..|ts| - 1], ts[|ts| - 1];
    if s in SubtreesOf(init) { KidIsSubtree(init, s, k); }
    else if s == t { MemberIsSubtree(t.kids, k); }
    else { KidIsSubtree(t.kids, s, k); }
  }

  lemma {:induction false} MemberIsSubtree(ts: seq<Shape>, k: nat)
    requires k < |ts|
    ensures ts[k] in SubtreesOf(ts)
    decreases ts
  {
    if k < |ts| - 1 { MemberIsSubtree(ts[..|ts| - 1], k); }
  }

  /** A child sits in a strictly lower layer than its parent. */
  lemma ChildrenLower(t: Shape, k: nat)
    requires k < |t.kids|
    ensures Height(t.kids[k]) < Height(t)
  {
  }

  /** Layers run from 1 to the height of the root without a gap. */
  lemma {:induction false} LayersContiguous(t: Shape, h: nat)
    ensures LayerOf(t, h) != [] <==> 1 <= h <= Height(t)
    decreases t, 1
  {
    LayersOfAllContiguous(t.kids, h);
  }

  lemma {:induction false} LayersOfAllContiguous(ts: seq<Shape>, h: nat)
    ensures LayerOfAll(ts, h) != [] <==> ts != [] && 1 <= h <= Tallest(ts)
    decreases ts, 0
  {
    if ts == [] {
    } else {
      LayersOfAllContiguous(ts[..|ts| - 1], h);
      LayersContiguous(ts[|ts| - 1], h);
    }
  }

  // ---------- how many internal nodes there are

  ghost function Internal(t: Shape): nat
    decreases t, 1
  {
    InternalOf(t.kids) + if t.kids == [] then 0 else 1
  }

  ghost function InternalOf(ts: seq<Shape>): nat
    decreases ts, 0
  {
    if ts == [] then 0 else InternalOf(ts[..|ts| - 1]) + Internal(ts[|ts| - 1])
  }

  /** In a tree that always branches, internal nodes are fewer than leaves. */
  lemma {:induction false} InternalBound(t: Shape)
    requires Branching(t)
    ensures Internal(t) + 1 <= |Leaves(t)|
    decreases t, 1
  {
    if t.kids != [] { InternalOfBound(t.kids); }
  }

  lemma {:induction false} InternalOfBound(ts: seq<Shape>)
    requires forall k :: 0 <= k < |ts| ==> Branching(ts[k])
    ensures InternalOf(ts) + |ts| <= |LeavesOf(ts)|
    decreases ts, 0
  {
    if ts == [] {
    } else {
      var init, t := ts[..|ts| - 1], ts[|ts| - 1];
      InternalOfBound(init);
      InternalBound(t);
      assert ts == init + [t];
      LeavesConcat(init, [t]);
      LeavesOne(t);
    }
  }

  /** Nodes in layers `1..h`. */
  ghost function Upto(t: Shape, h: nat): nat {
    if h == 0 then 0 else Upto(t, h - 1) + |LayerOf(t, h)|
  }

  ghost function UptoAll(ts: seq<Shape>, h: nat): nat {
    if h == 0 then 0 else UptoAll(ts, h - 1) + |LayerOfAll(ts, h)|
  }

  lemma {:induction false} UptoSplit(ts: seq<Shape>, h: nat)
    ensures ts == [] ==> UptoAll(ts, h) == 0
    ensures ts != [] ==> UptoAll(ts, h) == UptoAll(ts[..|ts| - 1], h) + Upto(ts[|ts| - 1], h)
    decreases h
  {
    if h == 0 {
    } else {
      UptoSplit(ts, h - 1);
    }
  }

  lemma {:induction false} UptoRoot(t: Shape, h: nat)
    ensures Upto(t, h) == UptoAll(t.kids, h) + if t.kids != [] && Height(t) <= h then 1 else 0
    decreases h
  {
    if h == 0 {
    } else {
      UptoRoot(t, h - 1);
    }
  }

  /** The layers together hold no more than all internal nodes, and all of them together hold all. */
  lemma {:induction false} LayersTotal(t: Shape, h: nat)
    ensures Upto(t, h) <= Internal(t)
    ensures h >= Height(t) ==> Upto(t, h) == Internal(t)
    decreases t, 1
  {
    UptoRoot(t, h);
    LayersTotalAll(t.kids, h);
  }

  lemma {:induction false} LayersTotalAll(ts: seq<Shape>, h: nat)
    ensures UptoAll(ts, h) <= InternalOf(ts)
    ensures h >= Tallest(ts) ==> UptoAll(ts, h) == InternalOf(ts)
    decreases ts, 0
  {
    UptoSplit(ts, h);
    if ts == [] {
    } else {
      LayersTotalAll(ts[..|ts| - 1], h);
      LayersTotal(ts[|ts| - 1], h);
    }
  }
}
