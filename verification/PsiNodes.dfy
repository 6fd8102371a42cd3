/** The linked tree nodes of the Psi builder, and the shape of the tree they form. */
module PsiNodes {

  class PsiTreeNode {
    const index: nat
    var text: string
    var children: seq<PsiTreeNode>
    var parent: PsiTreeNode?

    constructor (index: nat)
      ensures this.index == index && text == "" && children == [] && parent == null
    {
      this.index := index;
      text, children, parent := "", [], null;
    }
  }

  /** A finite ordered tree of node objects, as a value. */
  datatype Shape = Shape(node: PsiTreeNode, kids: seq<Shape>)

  ghost function Nodes(t: Shape): (s: set<PsiTreeNode>)
    ensures t.node in s
  {
    {t.node} + set k, x | k in t.kids && x in Nodes(k) :: x
  }

  ghost function NodesOf(ts: seq<Shape>): set<PsiTreeNode> {
    set k, x | k in ts && x in Nodes(k) :: x
  }

  function Heads(ts: seq<Shape>): (h: seq<PsiTreeNode>)
    ensures |h| == |ts| && forall k :: 0 <= k < |ts| ==> h[k] == ts[k].node
  {
    seq(|ts|, k requires 0 <= k < |ts| => ts[k].node)
  }

  /** The roots of a list of shapes, as a frame. */
  ghost function HeadSet(ts: seq<Shape>): set<PsiTreeNode> {
    set k | 0 <= k < |ts| :: ts[k].node
  }

  lemma OnlyHead(ts: seq<Shape>, k: nat)
    requires SeparateAll(ts) && k < |ts|
    ensures Nodes(ts[k]) * HeadSet(ts) == {ts[k].node}
    ensures Nodes(ts[k]) - {ts[k].node} <= NodesOf(ts) - HeadSet(ts)
  {
    forall m | 0 <= m < |ts| && m != k ensures ts[m].node !in Nodes(ts[k]) {
      if m < k { assert Nodes(ts[m]) !! Nodes(ts[k]); } else { assert Nodes(ts[k]) !! Nodes(ts[m]); }
    }
  }

  /** No node object occurs twice. */
  ghost predicate Separate(t: Shape)
    decreases t, 1
  {
    t.node !in NodesOf(t.kids) && SeparateAll(t.kids)
  }

  ghost predicate SeparateAll(ts: seq<Shape>)
    decreases ts, 0
  {
    && (forall k :: 0 <= k < |ts| ==> Separate(ts[k]))
    && (forall j, k :: 0 <= j < k < |ts| ==> Nodes(ts[j]) !! Nodes(ts[k]))
  }

  /** The children lists and parent links in the heap are those of the shape. */
  ghost predicate Wired(t: Shape)
    reads Nodes(t)`children, (Nodes(t) - {t.node})`parent
  {
    && t.node !in NodesOf(t.kids)
    && t.node.children == Heads(t.kids)
    && (forall k :: 0 <= k < |t.kids| ==> t.kids[k].node in Nodes(t) - {t.node} && t.kids[k].node.parent == t.node)
    && (forall k :: 0 <= k < |t.kids| ==> Wired(t.kids[k]))
  }

  ghost predicate WiredAll(ts: seq<Shape>)
    reads NodesOf(ts)`children, (NodesOf(ts) - HeadSet(ts))`parent
    requires SeparateAll(ts)
  {
    forall k :: 0 <= k < |ts| ==> (OnlyHead(ts, k); Wired(ts[k]))
  }

  /** Left-to-right leaves. */
  ghost function Leaves(t: Shape): (l: seq<PsiTreeNode>)
    ensures l != []
    decreases t, 1
  {
    if t.kids == [] then [t.node] else LeavesOf(t.kids)
  }

  ghost function LeavesOf(ts: seq<Shape>): (l: seq<PsiTreeNode>)
    ensures ts != [] ==> l != []
    decreases ts, 0
  {
    if ts == [] then [] else Leaves(ts[0]) + LeavesOf(ts[1..])
  }

  lemma {:induction false} LeavesConcat(a: seq<Shape>, b: seq<Shape>)
    ensures LeavesOf(a + b) == LeavesOf(a) + LeavesOf(b)
    decreases |a|
  {
    if a == [] {
      assert a + b == b;
    } else {
      LeavesConcat(a[1..], b);
      assert (a + b)[1..] == a[1..] + b;
    }
  }

  /** Every node has at most `max` children. */
  ghost predicate FanoutAtMost(t: Shape, max: nat) {
    |t.kids| <= max && forall k :: 0 <= k < |t.kids| ==> FanoutAtMost(t.kids[k], max)
  }

  /** Every internal node has at least two children. */
  ghost predicate Branching(t: Shape) {
    |t.kids| != 1 && forall k :: 0 <= k < |t.kids| ==> Branching(t.kids[k])
  }

  /** Nodes that carry no text yet. */
  ghost predicate NoText(made: set<PsiTreeNode>)
    reads made`text
  {
    forall x :: x in made ==> x.text == ""
  }

  lemma NoTextUnion(a: set<PsiTreeNode>, b: set<PsiTreeNode>)
    ensures NoText({})
    ensures NoText(a) && NoText(b) ==> NoText(a + b)
  {
  }

  /** `made` are distinct new nodes whose indices fill `[lo, hi)`. */
  ghost predicate Numbered(made: set<PsiTreeNode>, lo: nat, hi: nat) {
    && lo <= hi && |made| == hi - lo
    && (forall x :: x in made ==> lo <= x.index < hi)
    && (forall x, y :: x in made && y in made && x != y ==> x.index != y.index)
  }

  lemma NumberedUnion(a: set<PsiTreeNode>, b: set<PsiTreeNode>, lo: nat, mid: nat, hi: nat)
    requires Numbered(a, lo, mid) && Numbered(b, mid, hi)
    ensures a !! b && Numbered(a + b, lo, hi)
  {
    forall x | x in a ensures x !in b { assert x.index < mid; }
    assert a !! b;
    assert |a + b| == |a| + |b|;
  }
}
