/** `_build_exact_psi_structure` and its bucketed wrapper: node objects linked into one
    tree.  Pair rankings and cluster labels are arbitrary inputs. */
module PsiBuilder {
  import opened PsiForest
  import opened PsiDendrogram
  import opened PsiNodes
  import opened PsiRebalance
  import opened PsiMergeTree
  import opened PsiGraft
  import UF = PsiUnionFind
  import B = PsiBuckets

  /** A ranking lists every pair of distinct positions, in some order. */
  ghost predicate RanksAll(pairs: Pairs, n: nat) {
    InRange(pairs, n) && forall i, j :: 0 <= i < j < n ==> Touch(pairs, i, j)
  }

  // ---------- one root after the ranking is exhausted

  /** Once `n - 1` unions succeeded, or every pair was tried, all leaves share a root. */
  lemma OneRoot(n: nat, pairs: Pairs, k: nat)
    requires n >= 2 && RanksAll(pairs, n) && k <= |pairs|
    requires k == |pairs| || Merges(n, pairs[..k]) == n - 1
    ensures InRange(pairs[..k], n) && Merges(n, pairs[..k]) == n - 1
    ensures forall x :: 0 <= x < n ==> Root(Run(n, pairs[..k]), x) == Root(Run(n, pairs[..k]), 0)
  {
    var used := pairs[..k];
    var f := Run(n, used);
    RunCounts(n, used);
    if k == |pairs| {
      assert used == pairs;
      forall x | 0 <= x < n ensures Root(f, x) == Root(f, 0) {
        if x > 0 {
          assert Touch(pairs, 0, x);
          assert Walk(pairs, [0, x], 0, x);
          Connectivity(n, pairs, 0, x);
        }
      }
      OneMember(f);
    } else {
      assert Root(f, 0) in Roots(f);
      forall x | 0 <= x < n ensures Root(f, x) == Root(f, 0) {
        SingleMember(Roots(f), Root(f, 0), Root(f, x));
      }
    }
  }

  lemma SingleMember(s: set<nat>, a: nat, b: nat)
    requires |s| == 1 && a in s && b in s
    ensures a == b
  {
    assert |s - {a}| == 0;
  }

  lemma OneMember(f: Forest)
    requires Valid(f) && |f.rank| > 0 && forall x :: 0 <= x < |f.rank| ==> Root(f, x) == Root(f, 0)
    ensures |Roots(f)| == 1
  {
    forall x | x in Roots(f) ensures x == Root(f, 0) { assert Root(f, x) == x; }
    assert Roots(f) == {Root(f, 0)};
  }

  /** Run the unions in ranked order until one tree is left. */
  method UniteRanked(n: nat, pairs: Pairs) returns (tree: seq<int>, merges: nat, ghost f: Forest)
    requires n >= 2 && RanksAll(pairs, n)
    ensures f == Run(n, pairs)
    ensures Valid(f) && |f.rank| == n && |tree| == |f.owner| && Forked(f)
    ensures forall id :: 0 <= id < |tree| ==> tree[id] == Parent(f, id)
    ensures merges == n - 1
    ensures forall x :: 0 <= x < n ==> Root(f, x) == Root(f, 0)
  {
    var uf := new UF.PsiUnionFind(n);
    merges := 0;
    var k := 0;
    assert pairs[..0] == [];
    while k < |pairs|
      invariant k <= |pairs| && InRange(pairs[..k], n)
      invariant uf.Valid() && uf.n == n && fresh(uf) && fresh(uf.rank) && fresh(uf.tree)
      invariant uf.forest == Run(n, pairs[..k]) && merges == Merges(n, pairs[..k])
      invariant merges < n - 1
    {
      hide Run, Merges, UF.Represents, Valid, Shaped, Unite;
      var pair := pairs[k];
      RunStep(n, pairs, k);
      var added := uf.Union(pair.0, pair.1);
      if added {
        merges := merges + 1;
      }
      k := k + 1;
      if merges == n - 1 {
        break;
      }
    }
    hide UF.Represents, Shaped, Run, Parent, Forked;
    OneRoot(n, pairs, k);
    RunForked(n, pairs[..k]);
    NothingLeft(n, pairs, k);
    f := uf.forest;
    TreeSlice(f, n, uf.rank[..], uf.parentChains, uf.nodeIds, uf.nextId, uf.tree[..]);
    tree := uf.tree[..uf.nextId];
  }

  /** Once all leaves share a root, the pairs left over change nothing: stopping early is safe. */
  lemma {:induction false} NothingLeft(n: nat, pairs: Pairs, k: nat)
    requires InRange(pairs, n) && n > 0 && k <= |pairs| && InRange(pairs[..k], n)
    requires forall x :: 0 <= x < n ==> Root(Run(n, pairs[..k]), x) == Root(Run(n, pairs[..k]), 0)
    ensures Run(n, pairs) == Run(n, pairs[..k])
    decreases |pairs| - k
  {
    hide Run, Merges;
    if k == |pairs| {
      assert pairs[..k] == pairs;
    } else {
      RunStep(n, pairs, k);
      assert Run(n, pairs[..k + 1]) == Run(n, pairs[..k]);
      NothingLeft(n, pairs, k + 1);
    }
  }

  /** The used part of the compact array is the parent array of the forest. */
  lemma TreeSlice(f: Forest, n: nat, rank: seq<nat>, chains: seq<seq<nat>>, ids: seq<seq<nat>>, next: nat,
                  tree: seq<int>)
    requires UF.Represents(f, n, rank, chains, ids, next, tree) && n > 0
    ensures Valid(f) && |f.rank| == n && next == |f.owner| <= |tree|
    ensures forall id :: 0 <= id < |f.owner| ==> tree[..next][id] == Parent(f, id)
  {
  }

  lemma RunStep(n: nat, pairs: Pairs, k: nat)
    requires InRange(pairs, n) && k < |pairs|
    ensures InRange(pairs[..k], n) && InRange(pairs[..k + 1], n)
    ensures Run(n, pairs[..k + 1]) == Unite(Run(n, pairs[..k]), pairs[k].0, pairs[k].1)
    ensures Merges(n, pairs[..k + 1]) == Merges(n, pairs[..k])
              + if Root(Run(n, pairs[..k]), pairs[k].0) == Root(Run(n, pairs[..k]), pairs[k].1) then 0 else 1
  {
    assert pairs[..k + 1][..k] == pairs[..k];
  }

  // ---------- node objects for the entries of the parent array

  /** `local` names the input nodes and one new object for each other entry seen so far. */
  ghost predicate LocalsOk(nodes: seq<PsiTreeNode>, size: nat, local: Locals, made: set<PsiTreeNode>, lo: nat,
                           hi: nat) {
    Numbered(made, lo, hi) && Named(nodes, size, local, made)
  }

  ghost predicate Named(nodes: seq<PsiTreeNode>, size: nat, local: Locals, made: set<PsiTreeNode>) {
    && |nodes| <= size
    && (forall i: nat {:trigger i in local} {:trigger nodes[i]} :: i < |nodes| ==> i in local && local[i] == nodes[i])
    && (forall id {:trigger local[id]} :: id in local ==> id < size && (id >= |nodes| ==> local[id] in made))
    && (forall c, d {:trigger local[c], local[d]} ::
          c in local && d in local && c >= |nodes| && d >= |nodes| && c != d ==> local[c] != local[d])
    && (forall x :: x in made ==> exists id :: id in local && id >= |nodes| && local[id] == x)
  }

  lemma BlankText(made: set<PsiTreeNode>)
    requires Blank(made)
    ensures NoText(made)
  {
  }

  ghost predicate Blank(made: set<PsiTreeNode>)
    reads made`children, made`parent, made`text
  {
    forall x :: x in made ==> x.children == [] && x.parent == null && x.text == ""
  }

  lemma AddLocal(nodes: seq<PsiTreeNode>, size: nat, local: Locals, made: set<PsiTreeNode>, lo: nat, hi: nat,
                 id: nat, x: PsiTreeNode)
    requires LocalsOk(nodes, size, local, made, lo, hi) && id !in local && id < size
    requires x !in made && x.index == hi
    ensures LocalsOk(nodes, size, local[id := x], made + {x}, lo, hi + 1)
  {
    NumberedOne(x, hi);
    NumberedUnion(made, {x}, lo, hi, hi + 1);
    hide Numbered;
    NamesKept(nodes, size, local, made, id, x);
  }

  lemma NamesKept(nodes: seq<PsiTreeNode>, size: nat, local: Locals, made: set<PsiTreeNode>, id: nat, x: PsiTreeNode)
    requires Named(nodes, size, local, made) && id !in local && id < size && x !in made
    ensures Named(nodes, size, local[id := x], made + {x})
  {
    var wider, n := local[id := x], |nodes|;
    assert id >= n && wider[id] == x;
    forall c | c in wider ensures c < size && (c >= n ==> wider[c] in made + {x}) {
      if c != id { assert wider[c] == local[c]; }
    }
    forall c, d | c in wider && d in wider && c >= n && d >= n && c != d ensures wider[c] != wider[d] {
      if c != id && d != id { assert local[c] != local[d]; }
    }
    forall y | y in made ensures exists d :: d in wider && d >= n && wider[d] == y {
      var d :| d in local && d >= n && local[d] == y;
      assert wider[d] == y;
    }
  }

  lemma NumberedOne(x: PsiTreeNode, hi: nat)
    requires x.index == hi
    ensures Numbered({x}, hi, hi + 1)
  {
  }

  /** Look `id` up, creating its node object on first sight. */
  method EnsureNode(nodes: seq<PsiTreeNode>, ghost size: nat, local: Locals, next: nat, id: nat,
                    ghost made: set<PsiTreeNode>, ghost lo: nat)
    returns (local': Locals, next': nat, ghost made': set<PsiTreeNode>)
    requires LocalsOk(nodes, size, local, made, lo, next) && id < size && Blank(made)
    ensures LocalsOk(nodes, size, local', made', lo, next') && Blank(made')
    ensures local'.Keys == local.Keys + {id} && made <= made' && fresh(made' - made)
  {
    local', next', made' := local, next, made;
    if id !in local {
      assert allocated(made);
      var x := new PsiTreeNode(next);
      AddLocal(nodes, size, local, made, lo, next, id, x);
      local', next', made' := local[id := x], next + 1, made + {x};
    }
  }

  type Families = map<nat, seq<nat>>

  /** `fam` groups the first `m` entries of the parent array by parent, keys in `order`. */
  ghost predicate ByParent(tree: seq<int>, m: nat, fam: Families, order: seq<nat>)
    requires m <= |tree|
  {
    && (forall p: nat {:trigger p in fam} :: p in fam <==> Kids(tree, p, m) != [])
    && (forall p {:trigger fam[p]} :: p in fam ==> fam[p] == Kids(tree, p, m))
    && (forall p {:trigger p in order} :: p in order <==> p in fam)
    && (forall i, j :: 0 <= i < j < |order| ==> order[i] != order[j])
  }

  /** Add entry `m` to the family of its parent, if it has one. */
  function AddChild(tree: seq<int>, m: nat, fam: Families): Families
    requires m < |tree|
  {
    if tree[m] < 0 then fam else
    var p: nat := tree[m];
    fam[p := (if p in fam then fam[p] else []) + [m]]
  }

  function AddKey(tree: seq<int>, m: nat, fam: Families, order: seq<nat>): seq<nat>
    requires m < |tree|
  {
    if tree[m] < 0 then order else
    var p: nat := tree[m];
    if p in fam then order else order + [p]
  }

  lemma AddChildStep(tree: seq<int>, m: nat, fam: Families, order: seq<nat>)
    requires m < |tree| && ByParent(tree, m, fam, order)
    ensures ByParent(tree, m + 1, AddChild(tree, m, fam), AddKey(tree, m, fam, order))
  {
    var fam', order' := AddChild(tree, m, fam), AddKey(tree, m, fam, order);
    forall p: nat | p != tree[m] ensures Kids(tree, p, m + 1) == Kids(tree, p, m) { }
    if tree[m] >= 0 {
      var q: nat := tree[m];
      assert Kids(tree, q, m + 1) == Kids(tree, q, m) + [m];
      if q !in fam {
        assert order' == order + [q] && q !in order;
        forall p ensures p in order' <==> p in fam' { }
      }
    }
  }

  /** First pass over the compact array: node objects and families of children. */
  method AssembleNodes(nodes: seq<PsiTreeNode>, tree: seq<int>, next: nat)
    returns (local: Locals, fam: Families, order: seq<nat>, next': nat, ghost made: set<PsiTreeNode>)
    requires |nodes| <= |tree| && forall c :: 0 <= c < |tree| ==> tree[c] == -1 || 0 <= tree[c] < |tree|
    ensures LocalsOk(nodes, |tree|, local, made, next, next') && Blank(made) && fresh(made)
    ensures local.Keys == UpTo(|tree|)
    ensures ByParent(tree, |tree|, fam, order)
  {
    hide LocalsOk, ByParent, Blank, Kids, AddChild, AddKey, UpTo;
    local, fam, order, next', made := map i: nat | i < |nodes| :: nodes[i], map[], [], next, {};
    StartAssembly(nodes, tree, next, local);
    for c := 0 to |tree|
      invariant LocalsOk(nodes, |tree|, local, made, next, next') && Blank(made) && fresh(made)
      invariant UpTo(c) <= local.Keys <= UpTo(|tree|)
      invariant ByParent(tree, c, fam, order)
    {
      ghost var keys := local.Keys;
      local, next', made := NameEntry(nodes, tree, local, next', c, made, next);
      KeysGrow(c, |tree|, keys, local.Keys);
      AddChildStep(tree, c, fam, order);
      fam, order := AddChild(tree, c, fam), AddKey(tree, c, fam, order);
    }
  }

  lemma KeysGrow(c: nat, size: nat, keys: set<nat>, keys': set<nat>)
    requires c < size && UpTo(c) <= keys <= UpTo(size) && keys + {c} <= keys' <= keys + UpTo(size)
    ensures UpTo(c + 1) <= keys' <= UpTo(size)
  {
  }

  lemma KeysWithin(keys: set<nat>, c: nat, size: nat)
    requires c < size
    ensures keys <= keys + {c} <= keys + UpTo(size)
  {
  }

  /** Make sure entry `c` and its parent have node objects. */
  method NameEntry(nodes: seq<PsiTreeNode>, tree: seq<int>, local: Locals, next: nat, c: nat,
                   ghost made: set<PsiTreeNode>, ghost lo: nat)
    returns (local': Locals, next': nat, ghost made': set<PsiTreeNode>)
    requires LocalsOk(nodes, |tree|, local, made, lo, next) && c < |tree| && Blank(made)
    requires tree[c] == -1 || 0 <= tree[c] < |tree|
    ensures LocalsOk(nodes, |tree|, local', made', lo, next') && Blank(made')
    ensures local.Keys + {c} <= local'.Keys <= local.Keys + UpTo(|tree|)
    ensures made <= made' && fresh(made' - made)
  {
    hide LocalsOk, Blank, UpTo;
    ghost var keys := local.Keys;
    local', next', made' := EnsureNode(nodes, |tree|, local, next, c, made, lo);
    KeysWithin(keys, c, |tree|);
    if tree[c] != -1 {
      ghost var keys' := local'.Keys;
      var p: nat := tree[c];
      local', next', made' := EnsureNode(nodes, |tree|, local', next', p, made', lo);
      KeysWithin(keys', p, |tree|);
    }
  }

  lemma StartAssembly(nodes: seq<PsiTreeNode>, tree: seq<int>, next: nat, local: Locals)
    requires |nodes| <= |tree| && local == map i: nat | i < |nodes| :: nodes[i]
    ensures LocalsOk(nodes, |tree|, local, {}, next, next) && Blank({}) && ByParent(tree, 0, map[], [])
    ensures UpTo(0) <= local.Keys <= UpTo(|tree|)
  {
  }

  // ---------- linking parents and children

  ghost predicate Injective(local: Locals) {
    forall c, d {:trigger local[c], local[d]} :: c in local && d in local && c != d ==> local[c] != local[d]
  }

  /** The families of the parent array, with all names known. */
  ghost predicate FamiliesOf(tree: seq<int>, local: Locals, fam: Families, order: seq<nat>) {
    && Injective(local) && local.Keys == UpTo(|tree|)
    && ByParent(tree, |tree|, fam, order)
    && (forall c :: 0 <= c < |tree| ==> tree[c] == -1 || 0 <= tree[c] < |tree|)
  }

  ghost function KidSet(local: Locals, fam: Families, p: nat): set<PsiTreeNode> {
    if p in fam then set c | c in fam[p] && c in local :: local[c] else {}
  }

  /** Parent `p` and its children point at each other. */
  ghost predicate FamilyLinked(local: Locals, fam: Families, p: nat)
    reads (if p in local then {local[p]} else {})`children, KidSet(local, fam, p)`parent
  {
    && p in local && p in fam && (forall j :: 0 <= j < |fam[p]| ==> fam[p][j] in local)
    && local[p].children == Objects(local, fam[p])
    && (forall j :: 0 <= j < |fam[p]| ==> local[fam[p][j]].parent == local[p])
  }

  method Adopt(parent: PsiTreeNode, kids: seq<PsiTreeNode>)
    modifies (set x | x in kids)`parent
    ensures forall x :: x in kids ==> x.parent == parent
  {
    for k := 0 to |kids|
      invariant forall m :: 0 <= m < k ==> kids[m].parent == parent
    {
      kids[k].parent := parent;
    }
  }

  lemma {:induction false} KidsMember(tree: seq<int>, p: nat, m: nat, c: nat)
    requires m <= |tree|
    ensures c in Kids(tree, p, m) <==> c < m && tree[c] == p
  {
    if m == 0 {
    } else {
      KidsMember(tree, p, m - 1, c);
    }
  }

  /** What the families say about one parent. */
  lemma FamilyFacts(tree: seq<int>, local: Locals, fam: Families, order: seq<nat>, k: nat)
    requires FamiliesOf(tree, local, fam, order) && k < |order|
    ensures var p := order[k]; p in fam && p in local && fam[p] == Kids(tree, p, |tree|)
    ensures order[k] !in order[..k]
    ensures forall c: nat :: c < |tree| ==> c in local && (c in fam[order[k]] <==> tree[c] == order[k])
    ensures forall j :: 0 <= j < |fam[order[k]]| ==> fam[order[k]][j] in local
  {
    var p := order[k];
    assert p in order;
    var ks := Kids(tree, p, |tree|);
    assert ks != [] && tree[ks[0]] == p;
    forall c: nat | c < |tree| ensures c in fam[p] <==> tree[c] == p { KidsMember(tree, p, |tree|, c); }
  }

  ghost function RootSet(tree: seq<int>, local: Locals): set<PsiTreeNode> {
    set c | 0 <= c < |tree| && tree[c] == -1 && c in local :: local[c]
  }

  /** Entries without a parent have objects without a parent. */
  ghost predicate RootsFree(tree: seq<int>, local: Locals)
    reads RootSet(tree, local)`parent
  {
    forall c: nat {:trigger local[c]} :: c < |tree| && tree[c] == -1 ==> c in local && local[c].parent == null
  }

  method LinkFamily(ghost tree: seq<int>, local: Locals, fam: Families, order: seq<nat>, k: nat,
                    ghost made: set<PsiTreeNode>)
    requires FamiliesOf(tree, local, fam, order) && k < |order| && RootsFree(tree, local)
    requires order[k] in local && local[order[k]] in made
    modifies made`children, local.Values`parent
    ensures FamilyLinked(local, fam, order[k]) && RootsFree(tree, local)
    ensures forall j {:trigger order[j]} :: 0 <= j < k && old(FamilyLinked(local, fam, order[j])) ==>
        FamilyLinked(local, fam, order[j])
  {
    FamilyFacts(tree, local, fam, order, k);
    var p := order[k];
    var parent, kids := local[p], Objects(local, fam[p]);
    KidsApart(tree, local, fam, order, k);
    AllApart(tree, local, fam, order, k);
    hide FamiliesOf, ByParent, Kids, FamilyLinked, RootsFree, KidSet, RootSet;
    parent.children := kids;
    Adopt(parent, kids);
    NowLinked(local, fam, p);
  }

  lemma NowLinked(local: Locals, fam: Families, p: nat)
    requires p in local && p in fam && (forall j :: 0 <= j < |fam[p]| ==> fam[p][j] in local)
    requires local[p].children == Objects(local, fam[p])
    requires forall x :: x in Objects(local, fam[p]) ==> x.parent == local[p]
    ensures FamilyLinked(local, fam, p)
  {
    var kids := Objects(local, fam[p]);
    forall j | 0 <= j < |fam[p]| ensures local[fam[p][j]].parent == local[p] { assert kids[j] in kids; }
  }

  /** No earlier family shares its parent or a child with this one. */
  lemma AllApart(tree: seq<int>, local: Locals, fam: Families, order: seq<nat>, k: nat)
    requires FamiliesOf(tree, local, fam, order) && k < |order|
    ensures order[k] in fam && order[k] in local && forall j :: 0 <= j < |fam[order[k]]| ==> fam[order[k]][j] in local
    ensures var kids := set x | x in Objects(local, fam[order[k]]);
            RootSet(tree, local) !! kids &&
            forall j {:trigger order[j]} :: 0 <= j < k ==>
              order[j] in local && local[order[j]] != local[order[k]] && KidSet(local, fam, order[j]) !! kids
  {
    KidsApart(tree, local, fam, order, k);
    hide FamiliesOf;
    forall j | 0 <= j < k
      ensures order[j] in local && local[order[j]] != local[order[k]]
      ensures KidSet(local, fam, order[j]) !! set x | x in Objects(local, fam[order[k]]) {
      ParentsApart(tree, local, fam, order, j, k);
    }
  }

  /** The children of one family are named, and no entry of another parent is among them. */
  lemma KidsApart(tree: seq<int>, local: Locals, fam: Families, order: seq<nat>, k: nat)
    requires FamiliesOf(tree, local, fam, order) && k < |order|
    ensures order[k] in fam && order[k] in local && forall j :: 0 <= j < |fam[order[k]]| ==> fam[order[k]][j] in local
    ensures var kids := Objects(local, fam[order[k]]);
            && (forall x :: x in kids ==> x in local.Values)
            && (forall c: nat {:trigger local[c]} :: c < |tree| && tree[c] != order[k] ==>
                c in local && local[c] !in kids)
            && (forall c: nat {:trigger local[c]} :: c < |tree| && tree[c] == -1 ==> c in local && local[c] !in kids)
  {
    FamilyFacts(tree, local, fam, order, k);
    var p := order[k];
    var kids := Objects(local, fam[p]);
    forall c: nat | c < |tree| && tree[c] != p ensures c in local && local[c] !in kids {
      forall j | 0 <= j < |kids| ensures kids[j] != local[c] {
        assert fam[p][j] in fam[p];
        assert kids[j] == local[fam[p][j]];
      }
    }
  }

  /** Linking one family touches no child of another and no children list but one. */
  lemma ParentsApart(tree: seq<int>, local: Locals, fam: Families, order: seq<nat>, j: nat, k: nat)
    requires FamiliesOf(tree, local, fam, order) && j < k < |order|
    ensures order[k] in fam && order[k] in local && forall m :: 0 <= m < |fam[order[k]]| ==> fam[order[k]][m] in local
    ensures var kids := Objects(local, fam[order[k]]);
            order[j] in fam && order[j] in local && local[order[j]] != local[order[k]]
            && forall m :: 0 <= m < |fam[order[j]]| ==> fam[order[j]][m] in local && local[fam[order[j]][m]] !in kids
  {
    KidsApart(tree, local, fam, order, k);
    OtherFamily(tree, local, fam, order, j, k);
  }

  lemma OtherFamily(tree: seq<int>, local: Locals, fam: Families, order: seq<nat>, j: nat, k: nat)
    requires FamiliesOf(tree, local, fam, order) && j < k < |order|
    ensures order[j] != order[k] && order[j] in fam && order[j] in local
    ensures forall m :: 0 <= m < |fam[order[j]]| ==> fam[order[j]][m] < |tree| && tree[fam[order[j]][m]] != order[k]
  {
    FamilyFacts(tree, local, fam, order, j);
  }

  /** Second pass: give every parent its children and every child its parent. */
  method LinkNodes(ghost tree: seq<int>, local: Locals, fam: Families, order: seq<nat>, ghost made: set<PsiTreeNode>)
    requires FamiliesOf(tree, local, fam, order) && RootsFree(tree, local)
    requires forall k {:trigger order[k]} :: 0 <= k < |order| ==> order[k] in local && local[order[k]] in made
    modifies made`children, local.Values`parent
    ensures forall k {:trigger order[k]} :: 0 <= k < |order| ==> FamilyLinked(local, fam, order[k])
    ensures RootsFree(tree, local)
  {
    hide FamiliesOf, FamilyLinked, RootsFree;
    for k := 0 to |order|
      invariant forall j {:trigger order[j]} :: 0 <= j < k ==> FamilyLinked(local, fam, order[j])
      invariant RootsFree(tree, local)
    {
      LinkFamily(tree, local, fam, order, k, made);
    }
  }

  // ---------- the exact builder

  ghost predicate Mirrors(tree: seq<int>, f: Forest) {
    && Valid(f) && |tree| == |f.owner|
    && forall c {:trigger tree[c]} :: 0 <= c < |tree| ==> tree[c] == Parent(f, c)
  }

  lemma ParentRange(tree: seq<int>, f: Forest, c: nat)
    requires Mirrors(tree, f) && c < |tree|
    ensures tree[c] == -1 || |f.rank| <= tree[c] < |tree|
  {
    if tree[c] != -1 {
      ParentLevel(f, c);
      LevelZero(f, tree[c]);
    }
  }

  lemma {:induction false} SameKids(tree: seq<int>, f: Forest, id: nat, m: nat)
    requires Mirrors(tree, f) && m <= |tree|
    ensures KidIds(f, id, m) == Kids(tree, id, m)
    decreases m
  {
    if m == 0 {
    } else {
      SameKids(tree, f, id, m - 1);
    }
  }

  lemma InputNames(tree: seq<int>, nodes: seq<PsiTreeNode>, ts: seq<Shape>, local: Locals,
                   made: set<PsiTreeNode>, lo: nat, hi: nat, id: nat)
    requires Heads(ts) == nodes && LocalsOk(nodes, |tree|, local, made, lo, hi) && id < |nodes|
    ensures |ts| == |nodes| && id in local && local[id] == ts[id].node && local[id] in NodesOf(ts)
    ensures local[id] in HeadSet(ts)
  {
    assert nodes[id] == ts[id].node && ts[id] in ts && ts[id].node in Nodes(ts[id]);
  }

  /** Different entries have different objects. */
  lemma NamesInjective(tree: seq<int>, nodes: seq<PsiTreeNode>, ts: seq<Shape>, local: Locals,
                       made: set<PsiTreeNode>, lo: nat, hi: nat)
    requires Heads(ts) == nodes && SeparateAll(ts)
    requires LocalsOk(nodes, |tree|, local, made, lo, hi) && made !! NodesOf(ts)
    ensures Injective(local)
  {
    hide NodesOf, Numbered, Heads, HeadSet;
    var n := |nodes|;
    forall c, d | c in local && d in local && c < d ensures local[c] != local[d] {
      if c < n { InputNames(tree, nodes, ts, local, made, lo, hi, c); }
      if d < n {
        InputNames(tree, nodes, ts, local, made, lo, hi, d);
        assert Nodes(ts[c]) !! Nodes(ts[d]);
      }
    }
  }

  /** The assembled names are the inputs and distinct new objects. */
  lemma NamesFresh(f: Forest, tree: seq<int>, nodes: seq<PsiTreeNode>, ts: seq<Shape>, local: Locals,
                   made: set<PsiTreeNode>, lo: nat, hi: nat)
    requires Mirrors(tree, f) && |f.rank| == |nodes| && Heads(ts) == nodes && SeparateAll(ts)
    requires LocalsOk(nodes, |tree|, local, made, lo, hi) && local.Keys == UpTo(|tree|) && made !! NodesOf(ts)
    ensures Ready(f, local, ts) && FreshLocals(f, local, ts, made) && Injective(local)
    ensures local.Values <= made + HeadSet(ts) && Numbered(made, lo, hi)
  {
    hide Labelled, Shaped, NodesOf, Heads, HeadSet, SeparateAll;
    NamesInjective(tree, nodes, ts, local, made, lo, hi);
    assert Ready(f, local, ts);
    forall id: nat | id < |nodes| ensures id in local && local[id] == ts[id].node && local[id] in HeadSet(ts) {
      InputNames(tree, nodes, ts, local, made, lo, hi, id);
    }
    forall x | x in made ensures exists id: nat :: |nodes| <= id < |f.owner| && local[id] == x {
      var d :| d in local && d >= |nodes| && local[d] == x;
      assert |nodes| <= d < |f.owner|;
    }
  }

  /** The linked families give every tree node the children and the parent the forest says. */
  lemma FamiliesHook(f: Forest, tree: seq<int>, ts: seq<Shape>, local: Locals, fam: Families, order: seq<nat>)
    requires Mirrors(tree, f) && TwoKids(f) && Ready(f, local, ts) && FamiliesOf(tree, local, fam, order)
    requires forall k {:trigger order[k]} :: 0 <= k < |order| ==> FamilyLinked(local, fam, order[k])
    ensures Hooked(f, local, ts)
  {
    hide Shaped, Labelled;
    forall id: nat | |f.rank| <= id < |f.owner|
      ensures local[id].children == Objects(local, KidIds(f, id, |f.owner|)) {
      LevelZero(f, id);
      var c, d :| 0 <= c < d < |f.owner| && Parent(f, c) == id && Parent(f, d) == id;
      FamilyOf(f, tree, local, fam, order, c);
      SameKids(tree, f, id, |tree|);
    }
    forall c: nat | c < |f.owner| && Parent(f, c) != -1 ensures local[c].parent == local[Parent(f, c)] {
      FamilyOf(f, tree, local, fam, order, c);
      var p: nat := tree[c];
      var j :| 0 <= j < |fam[p]| && fam[p][j] == c;
    }
  }

  lemma FamilyOf(f: Forest, tree: seq<int>, local: Locals, fam: Families, order: seq<nat>, c: nat)
    requires Mirrors(tree, f) && FamiliesOf(tree, local, fam, order) && c < |tree| && tree[c] != -1
    requires forall k {:trigger order[k]} :: 0 <= k < |order| ==> FamilyLinked(local, fam, order[k])
    ensures var p: nat := tree[c];
            p in fam && FamilyLinked(local, fam, p) && c in fam[p]
            && fam[p] == Kids(tree, p, |tree|)
  {
    var p: nat := tree[c];
    KidsMember(tree, p, |tree|, c);
    assert p in order;
    var k :| 0 <= k < |order| && order[k] == p;
  }

  /** Among the first `m` entries without a parent, the one whose object has the largest index. */
  function BestRoot(tree: seq<int>, local: Locals, m: nat): (best: int)
    requires m <= |tree| && local.Keys == UpTo(|tree|)
    ensures best == -1 || (0 <= best < m && tree[best] == -1)
    ensures best == -1 ==> forall c :: 0 <= c < m ==> tree[c] != -1
    ensures best != -1 ==> forall c: nat {:trigger local[c]} :: c < m && tree[c] == -1 ==>
        local[c].index <= local[best].index
  {
    if m == 0 then -1 else
    var best := BestRoot(tree, local, m - 1);
    if tree[m - 1] == -1 && (best == -1 || local[best].index < local[m - 1].index) then m - 1 else best
  }

  lemma RootEntry(f: Forest, tree: seq<int>, r: nat, id: nat)
    requires Mirrors(tree, f) && r < |f.rank| && id < |tree| && forall x :: 0 <= x < |f.rank| ==> Root(f, x) == r
    ensures tree[id] == -1 <==> id == Top(f, r)
  {
    RootIsTop(f, id);
    var s := f.owner[id];
    assert Root(f, s.leaf) == r;
    RootIsTop(f, Top(f, r));
  }

  lemma ForkedKids(f: Forest)
    requires Valid(f) && Forked(f)
    ensures TwoKids(f)
  {
    forall id | 0 <= id < |f.owner| && Level(f, id) > 0
      ensures exists c, d :: 0 <= c < d < |f.owner| && Parent(f, c) == id && Parent(f, d) == id {
      TwoChildren(f, id);
      var c, d :| 0 <= c < |f.owner| && 0 <= d < |f.owner| && c != d && Parent(f, c) == id && Parent(f, d) == id;
      var lo, hi := if c < d then c else d, if c < d then d else c;
      assert 0 <= lo < hi < |f.owner| && Parent(f, lo) == id && Parent(f, hi) == id;
    }
  }

  /** A one-root forest whose inputs are `ts` grafts them into a single tree. */
  lemma ForestGrafts(f: Forest, local: Locals, ts: seq<Shape>, made: set<PsiTreeNode>, r: nat)
    requires Valid(f) && Ready(f, local, ts) && FreshLocals(f, local, ts, made) && SeparateAll(ts) && TwoKids(f)
    requires r < |f.rank| && forall x :: 0 <= x < |f.rank| ==> Root(f, x) == r
    ensures Grafted([ShapeAt(f, local, ts, Top(f, r))], ts, made)
  {
    var id := Top(f, r);
    var t := ShapeAt(f, local, ts, id);
    WholeTree(f, local, ts, made, r);
    ShapeLeaves(f, local, ts, id);
    EveryLeafOnce(f, r);
    SelPermutes(ts, CutIds(f, id));
    assert made !! NodesOf(ts);
    hide ShapeAt, CutIds, Shaped, Labelled, NodesOf, LeavesOf, FrontierOf, SeparateAll, Separate, FreshLocals, Ready;
    OrderIrrelevant(Sel(ts, CutIds(f, id)), ts, made);
    RootParts(t);
    LeavesOne(t);
    FrontierSingle(t, made);
    BranchingOne(t);
  }

  lemma BranchingOne(t: Shape)
    ensures BranchingAll([t]) <==> Branching(t)
  {
    if BranchingAll([t]) { assert Branching([t][0]); }
  }

  ghost predicate Orphans(nodes: seq<PsiTreeNode>)
    reads set x | x in nodes
  {
    forall k :: 0 <= k < |nodes| ==> nodes[k].parent == null
  }

  /** Everything `BuildExact` and the bucketed builder promise about the tree they return. */
  ghost predicate Built(root: PsiTreeNode, t: Shape, ts: seq<Shape>, made: set<PsiTreeNode>, next: nat, next': nat)
    reads Nodes(t)`children, Nodes(t)`parent
  {
    && t.node == root && root.parent == null
    && Separate(t) && Wired(t)
    && Grafted([t], ts, made) && Numbered(made, next, next')
  }

  lemma TreeFacts(tree: seq<int>, f: Forest, r: nat)
    requires Mirrors(tree, f) && r < |f.rank| && f.up[r] == r
    ensures Valid(f) && Shaped(f) && |f.rank| <= |tree| == |f.owner| && Top(f, r) < |tree| && tree[Top(f, r)] == -1
    ensures forall c :: 0 <= c < |tree| ==> tree[c] == -1 || |f.rank| <= tree[c] < |tree|
  {
    forall c: nat | c < |tree| ensures tree[c] == -1 || |f.rank| <= tree[c] < |tree| { ParentRange(tree, f, c); }
    RootIsTop(f, Top(f, r));
    LeafSlot(f, |f.rank| - 1);
  }

  /** The names and families fit together: parents are new objects, roots have no parent yet. */
  lemma FamilyNames(f: Forest, tree: seq<int>, nodes: seq<PsiTreeNode>, local: Locals, fam: Families, order: seq<nat>,
                    made: set<PsiTreeNode>, lo: nat, hi: nat)
    requires |nodes| <= |tree| && forall c :: 0 <= c < |tree| ==> tree[c] == -1 || |nodes| <= tree[c] < |tree|
    requires LocalsOk(nodes, |tree|, local, made, lo, hi) && local.Keys == UpTo(|tree|) && Injective(local)
    requires ByParent(tree, |tree|, fam, order) && Blank(made) && Orphans(nodes)
    ensures FamiliesOf(tree, local, fam, order) && RootsFree(tree, local)
    ensures forall k {:trigger order[k]} :: 0 <= k < |order| ==> order[k] in local && local[order[k]] in made
  {
    forall k | 0 <= k < |order| ensures order[k] in local && local[order[k]] in made {
      FamilyFacts(tree, local, fam, order, k);
      var ks := Kids(tree, order[k], |tree|);
      assert order[k] in fam && ks != [] && tree[ks[0]] == order[k];
    }
    forall c: nat | c < |tree| && tree[c] == -1 ensures c in local && local[c].parent == null {
      if c < |nodes| { assert local[c] == nodes[c]; }
    }
  }

  lemma FreeRoot(tree: seq<int>, local: Locals, id: nat)
    requires RootsFree(tree, local) && id < |tree| && tree[id] == -1
    ensures id in local && local[id].parent == null
  {
  }

  lemma SeparateOne(t: Shape, ts: seq<Shape>, made: set<PsiTreeNode>)
    requires Grafted([t], ts, made)
    ensures Separate(t)
  {
    RootParts(t);
  }

  /** Second pass: the named objects are linked as the parent array says. */
  method LinkObjects(nodes: seq<PsiTreeNode>, ghost tree: seq<int>, local: Locals, fam: Families, order: seq<nat>,
                     ghost next: nat, ghost next': nat, ghost f: Forest, ghost ts: seq<Shape>,
                     ghost made: set<PsiTreeNode>)
    requires Mirrors(tree, f) && TwoKids(f) && |f.rank| == |nodes| <= |tree|
    requires forall c :: 0 <= c < |tree| ==> tree[c] == -1 || |nodes| <= tree[c] < |tree|
    requires Heads(ts) == nodes && SeparateAll(ts) && WiredAll(ts) && Orphans(nodes) && made !! NodesOf(ts)
    requires LocalsOk(nodes, |tree|, local, made, next, next') && Blank(made)
    requires local.Keys == UpTo(|tree|) && ByParent(tree, |tree|, fam, order)
    modifies HeadSet(ts)`parent, made`children, made`parent
    ensures Ready(f, local, ts) && FreshLocals(f, local, ts, made) && Hooked(f, local, ts)
    ensures RootsFree(tree, local) && WiredAll(ts) && Numbered(made, next, next')
  {
    hide NodesOf, SeparateAll, WiredAll, Shaped, Labelled, Root, Parent, TwoKids, LocalsOk, ByParent, Blank,
         FamiliesOf, FamilyLinked, RootsFree, FreshLocals, Ready, Injective, Hooked, Mirrors, Heads, Numbered,
         Nodes, HeadSet, Orphans, Kids, UpTo;
    NamesFresh(f, tree, nodes, ts, local, made, next, next');
    FamilyNames(f, tree, nodes, local, fam, order, made, next, next');
    ghost var all, heads := NodesOf(ts), HeadSet(ts);
    assert allocated(all) && allocated(heads);
    assert all !! made && (all - heads) !! local.Values;
    LinkNodes(tree, local, fam, order, made);
    FamiliesHook(f, tree, ts, local, fam, order);
  }

  /** Both passes over the parent array: objects, then links. */
  method BuildObjects(nodes: seq<PsiTreeNode>, tree: seq<int>, next: nat, ghost f: Forest, ghost ts: seq<Shape>)
    returns (local: Locals, next': nat, ghost made: set<PsiTreeNode>)
    requires Mirrors(tree, f) && TwoKids(f) && |f.rank| == |nodes| <= |tree|
    requires forall c :: 0 <= c < |tree| ==> tree[c] == -1 || |nodes| <= tree[c] < |tree|
    requires Heads(ts) == nodes && SeparateAll(ts) && WiredAll(ts) && Orphans(nodes)
    modifies HeadSet(ts)`parent
    ensures Ready(f, local, ts) && FreshLocals(f, local, ts, made) && Hooked(f, local, ts)
    ensures local.Keys == UpTo(|tree|) && RootsFree(tree, local)
    ensures WiredAll(ts) && fresh(made) && Numbered(made, next, next') && NoText(made)
  {
    ghost var all := NodesOf(ts);
    assert allocated(all);
    hide NodesOf, SeparateAll, WiredAll, Shaped, Labelled, Root, Parent, TwoKids, LocalsOk, ByParent, Blank,
         FamiliesOf, FamilyLinked, RootsFree, FreshLocals, Ready, Injective, Hooked, Mirrors, Heads, Numbered,
         Nodes, HeadSet, Orphans, NoText, Kids, UpTo;
    var fam, order;
    local, fam, order, next', made := AssembleNodes(nodes, tree, next);
    assert made !! all;
    BlankText(made);
    LinkObjects(nodes, tree, local, fam, order, next, next', f, ts, made);
  }

  /** Turn a one-root parent array into one linked tree over the input nodes. */
  method LinkTree(nodes: seq<PsiTreeNode>, tree: seq<int>, next: nat, ghost f: Forest, ghost ts: seq<Shape>)
    returns (root: PsiTreeNode, next': nat, ghost t: Shape, ghost made: set<PsiTreeNode>, ghost names: Locals)
    requires Mirrors(tree, f) && TwoKids(f) && |f.rank| == |nodes| > 0
    requires forall x :: 0 <= x < |f.rank| ==> Root(f, x) == Root(f, 0)
    requires Heads(ts) == nodes && SeparateAll(ts) && WiredAll(ts) && Orphans(nodes)
    modifies HeadSet(ts)`parent
    ensures Built(root, t, ts, made, next, next') && fresh(made) && NoText(made)
    ensures HangsAs(t, f, names, ts, made)
  {
    ghost var r := Root(f, 0);
    hide NodesOf, SeparateAll, WiredAll, Wired, Separate, Shaped, Labelled, Root, Parent, TwoKids, RootsFree,
         FreshLocals, Ready, Hooked, ShapeAt, Grafted, Mirrors, Heads, Numbered, Nodes, HeadSet, Orphans, Built;
    TreeFacts(tree, f, r);
    var local;
    local, next', made := BuildObjects(nodes, tree, next, f, ts);
    t := ShapeAt(f, local, ts, Top(f, r));
    TreeDone(tree, f, r, local, ts, made, next, next', Top(f, r));
    names := local;
    var id := BestRoot(tree, local, |tree|);
    RootEntry(f, tree, r, id);
    root := local[id];
  }

  /** `t` is the tree that the parent array of forest `f` describes, with node objects named
      by `names`. */
  ghost predicate HangsAs(t: Shape, f: Forest, names: Locals, ts: seq<Shape>, made: set<PsiTreeNode>) {
    && Valid(f) && |f.rank| > 0 && FreshLocals(f, names, ts, made)
    && t == ShapeAt(f, names, ts, Top(f, Root(f, 0)))
  }

  lemma TreeDone(tree: seq<int>, f: Forest, r: nat, local: Locals, ts: seq<Shape>, made: set<PsiTreeNode>,
                 next: nat, next': nat, id: nat)
    requires Mirrors(tree, f) && Valid(f) && TwoKids(f) && r < |f.rank|
    requires forall x :: 0 <= x < |f.rank| ==> Root(f, x) == r
    requires Ready(f, local, ts) && FreshLocals(f, local, ts, made) && Hooked(f, local, ts) && RootsFree(tree, local)
    requires SeparateAll(ts) && WiredAll(ts) && Numbered(made, next, next')
    requires id < |tree| == |f.owner| && tree[id] == -1
    ensures id in local && Built(local[id], ShapeAt(f, local, ts, id), ts, made, next, next')
  {
    hide NodesOf, SeparateAll, WiredAll, Wired, Separate, Shaped, Labelled, Root, Parent, TwoKids, RootsFree,
         FreshLocals, Ready, Hooked, ShapeAt, Grafted, Mirrors, Heads, Numbered, Nodes, HeadSet, Built;
    RootEntry(f, tree, r, id);
    FreeRoot(tree, local, id);
    ShapeWired(f, local, ts, made, id);
    ShapeHead(f, local, ts, made, id);
    ForestGrafts(f, local, ts, made, r);
    SeparateOne(ShapeAt(f, local, ts, id), ts, made);
    BuildDone(local[id], ShapeAt(f, local, ts, id), ts, made, next, next');
  }

  lemma BuildDone(root: PsiTreeNode, t: Shape, ts: seq<Shape>, made: set<PsiTreeNode>, next: nat, next': nat)
    requires t.node == root && root.parent == null && Separate(t) && Wired(t)
    requires Grafted([t], ts, made) && Numbered(made, next, next')
    ensures Built(root, t, ts, made, next, next')
  {
  }

  // ---------- exact and bucketed building

  /** The numerical inputs: a ranking of all pairs, the most similar first, and cluster labels for
      every call, told apart by the next free index at the time of the call. */
  datatype Oracle = Oracle(ranking: (nat, nat) -> Pairs, labels: nat -> B.Labelling)

  ghost predicate OracleOk(o: Oracle) {
    && (forall k: nat, n: nat {:trigger o.ranking(k, n)} :: RanksAll(o.ranking(k, n), n))
    && (forall k: nat {:trigger o.labels(k)} :: B.InRange(o.labels(k)))
  }

  /** What every builder asks of its input nodes: disjoint linked trees without a parent. */
  ghost predicate Inputs(nodes: seq<PsiTreeNode>, ts: seq<Shape>)
    reads NodesOf(ts)`children, NodesOf(ts)`parent, HeadSet(ts)`parent
  {
    nodes != [] && Heads(ts) == nodes && SeparateAll(ts) && WiredAll(ts) && Attached(ts, null)
  }

  lemma OneInput(nodes: seq<PsiTreeNode>, ts: seq<Shape>, next: nat)
    requires Inputs(nodes, ts) && |nodes| == 1
    ensures |ts| == 1 && Built(nodes[0], ts[0], ts, {}, next, next)
  {
    assert ts == [ts[0]];
    GraftSelf(ts);
  }

  lemma InputParts(nodes: seq<PsiTreeNode>, ts: seq<Shape>)
    requires Inputs(nodes, ts)
    ensures nodes != [] && Heads(ts) == nodes && SeparateAll(ts) && WiredAll(ts) && Orphans(nodes) && |ts| == |nodes|
  {
    forall k | 0 <= k < |nodes| ensures nodes[k].parent == null { assert ts[k].node.parent == null; }
  }

  /** The exact builder: one tree over the inputs, and precisely the one that uniting all
      pairs in ranked order describes. */
  method BuildExact(nodes: seq<PsiTreeNode>, next: nat, o: Oracle, ghost ts: seq<Shape>)
    returns (root: PsiTreeNode, next': nat, merges: nat, ghost t: Shape, ghost made: set<PsiTreeNode>,
        ghost names: Locals)
    requires Inputs(nodes, ts) && OracleOk(o)
    modifies HeadSet(ts)`parent
    ensures Built(root, t, ts, made, next, next') && fresh(made) && NoText(made)
    ensures merges == |nodes| - 1
    ensures |nodes| >= 2 ==> LinkedAs(t, ts, next, next', o, names, made)
    ensures |nodes| == 1 ==> ts == [t] && next' == next
  {
    InputParts(nodes, ts);
    if |nodes| == 1 {
      OneInput(nodes, ts, next);
      return nodes[0], next, 0, ts[0], {}, map[];
    }
    var n := |nodes|;
    var pairs := o.ranking(next, n);
    assert RanksAll(pairs, n);
    ghost var all := NodesOf(ts);
    assert allocated(all);
    hide Inputs, SeparateAll, WiredAll, NodesOf, HeadSet, Heads, Orphans, OracleOk, Shaped, Labelled, Root, Forked,
         TwoKids, Parent, Built, HangsAs, Run;
    var tree, m, f := UniteRanked(n, pairs);
    merges := m;
    ForkedKids(f);
    root, next', t, made, names := LinkTree(nodes, tree, next, f, ts);
    BuiltParts(root, t, ts, made, next, next');
  }

  /** The size limits as the constructor clamps them. */
  datatype Limits = Limits(exactMaxLeaves: nat, bucketSize: nat)

  function MakeLimits(exactMaxLeaves: int, bucketSize: int): (l: Limits)
    ensures LimitsOk(l)
    ensures exactMaxLeaves >= 2 ==> l.exactMaxLeaves == exactMaxLeaves
    ensures exactMaxLeaves == 0 ==> l.exactMaxLeaves == 4096
    ensures exactMaxLeaves < 2 && exactMaxLeaves != 0 ==> l.exactMaxLeaves == 2
    ensures 2 <= bucketSize <= l.exactMaxLeaves ==> l.bucketSize == bucketSize
    ensures bucketSize == 0 && 1024 <= l.exactMaxLeaves ==> l.bucketSize == 1024
    ensures bucketSize < 2 && bucketSize != 0 ==> l.bucketSize == 2
    ensures bucketSize > l.exactMaxLeaves || (bucketSize == 0 && l.exactMaxLeaves < 1024) ==>
              l.bucketSize == l.exactMaxLeaves
  {
    var e: nat := if exactMaxLeaves == 0 then 4096 else if exactMaxLeaves < 2 then 2 else exactMaxLeaves;
    var b: nat := if bucketSize == 0 then 1024 else if bucketSize < 2 then 2 else bucketSize;
    Limits(e, if b < e then b else e)
  }

  predicate LimitsOk(l: Limits) {
    2 <= l.bucketSize <= l.exactMaxLeaves
  }

  // ---------- which tree is grown

  /** How a tree came about: it is an input, or linked over the inputs after one run of unions, or
      its inputs were cut into buckets, a tree grown over each, and one over their roots. */
  datatype Growth =
    | Given
    | Exact(names: Locals, made: set<PsiTreeNode>)
    | Bucketed(buckets: seq<B.Group>, roots: seq<Shape>, starts: seq<nat>, parts: seq<Growth>, top: Growth)

  /** `t` is the tree of the run over the ranking that is in force at index `next`. */
  ghost predicate LinkedAs(t: Shape, ts: seq<Shape>, next: nat, next': nat, o: Oracle, names: Locals,
                           made: set<PsiTreeNode>) {
    var pairs := o.ranking(next, |ts|);
    InRange(pairs, |ts|) && HangsAs(t, Run(|ts|, pairs), names, ts, made) && Numbered(made, next, next')
  }

  /** `t` is the tree to be grown over `ts`, with new nodes numbered from `next` up to `next'`:
      few inputs hang as the run over their own ranking; many are cut into the buckets that the
      labels ask for, a tree is grown over each bucket in turn, and one over the bucket roots. */
  ghost predicate GrownAs(t: Shape, ts: seq<Shape>, next: nat, next': nat, l: Limits, o: Oracle, w: Growth)
    requires OracleOk(o) && LimitsOk(l)
    decreases w, 1
  {
    if |ts| == 1 then w.Given? && t == ts[0] && next' == next
    else if |ts| <= l.exactMaxLeaves then w.Exact? && LinkedAs(t, ts, next, next', o, w.names, w.made)
    else
      && w.Bucketed? && B.Buckets(w.buckets, |ts|, l.bucketSize, o.labels(next))
      && PartsGrown(w.roots, ts, w.buckets, next, w.starts, l, o, w.parts) && |w.roots| == |w.buckets|
      && GrownAs(t, w.roots, w.starts[|w.buckets|], next', l, o, w.top)
  }

  /** Tree `k` of `gs` is grown over bucket `k`, numbered on from where tree `k - 1` ended. */
  ghost predicate PartsGrown(gs: seq<Shape>, ts: seq<Shape>, buckets: seq<B.Group>, next: nat, starts: seq<nat>,
                             l: Limits, o: Oracle, parts: seq<Growth>)
    requires OracleOk(o) && LimitsOk(l)
    decreases parts, 0
  {
    && |gs| == |parts| <= |buckets| && |starts| == |gs| + 1 && starts[0] == next
    && forall k :: 0 <= k < |gs| ==>
        Inside(buckets[k], |ts|) && GrownAs(gs[k], Sel(ts, buckets[k]), starts[k], starts[k + 1], l, o, parts[k])
  }

  predicate Inside(bucket: B.Group, n: nat) {
    forall k :: 0 <= k < |bucket| ==> bucket[k] < n
  }

  lemma PartsSnoc(gs: seq<Shape>, ts: seq<Shape>, buckets: seq<B.Group>, next: nat, starts: seq<nat>, l: Limits,
                  o: Oracle, parts: seq<Growth>, t: Shape, mid: nat, next': nat, w: Growth)
    requires OracleOk(o) && LimitsOk(l) && PartsGrown(gs, ts, buckets, next, starts, l, o, parts)
    requires |gs| < |buckets| && starts[|gs|] == mid && Inside(buckets[|gs|], |ts|)
    requires GrownAs(t, Sel(ts, buckets[|gs|]), mid, next', l, o, w)
    ensures PartsGrown(gs + [t], ts, buckets, next, starts + [next'], l, o, parts + [w])
  {
    hide GrownAs, OracleOk, Sel;
    var hs, ss, ws := gs + [t], starts + [next'], parts + [w];
    forall k | 0 <= k < |hs|
      ensures Inside(buckets[k], |ts|) && GrownAs(hs[k], Sel(ts, buckets[k]), ss[k], ss[k + 1], l, o, ws[k]) {
      if k < |gs| {
        assert hs[k] == gs[k] && ss[k] == starts[k] && ss[k + 1] == starts[k + 1] && ws[k] == parts[k];
      } else {
        assert hs[k] == t && ss[k] == mid && ss[k + 1] == next' && ws[k] == w;
      }
    }
  }

  lemma PartsNone(ts: seq<Shape>, buckets: seq<B.Group>, next: nat, l: Limits, o: Oracle)
    requires OracleOk(o) && LimitsOk(l)
    ensures PartsGrown([], ts, buckets, next, [next], l, o, [])
  {
  }

  lemma GrownGiven(t: Shape, next: nat, l: Limits, o: Oracle)
    requires OracleOk(o) && LimitsOk(l)
    ensures GrownAs(t, [t], next, next, l, o, Given)
  {
  }

  lemma GrownExact(t: Shape, ts: seq<Shape>, next: nat, next': nat, l: Limits, o: Oracle, names: Locals,
                    made: set<PsiTreeNode>)
    requires OracleOk(o) && LimitsOk(l) && 2 <= |ts| <= l.exactMaxLeaves
    requires LinkedAs(t, ts, next, next', o, names, made)
    ensures GrownAs(t, ts, next, next', l, o, Exact(names, made))
  {
  }

  lemma GrownBucketed(t: Shape, ts: seq<Shape>, buckets: seq<B.Group>, next: nat, mid: nat, next': nat, l: Limits,
                    o: Oracle, gs: seq<Shape>, starts: seq<nat>, parts: seq<Growth>, top: Growth)
    requires OracleOk(o) && LimitsOk(l) && |ts| > l.exactMaxLeaves && |gs| == |buckets|
    requires B.InRange(o.labels(next)) && B.Buckets(buckets, |ts|, l.bucketSize, o.labels(next))
    requires PartsGrown(gs, ts, buckets, next, starts, l, o, parts) && starts[|buckets|] == mid
    requires GrownAs(t, gs, mid, next', l, o, top)
    ensures GrownAs(t, ts, next, next', l, o, Bucketed(buckets, gs, starts, parts, top))
  {
    hide OracleOk, PartsGrown;
  }

  // ---------- the inputs in bucket order

  ghost function Flat(buckets: seq<B.Group>): (s: seq<nat>) {
    if buckets == [] then [] else Flat(buckets[..|buckets| - 1]) + buckets[|buckets| - 1]
  }

  lemma {:induction false} FlatElements(buckets: seq<B.Group>)
    ensures multiset(Flat(buckets)) == B.Elements(buckets)
  {
    if buckets == [] {
    } else {
      FlatElements(buckets[..|buckets| - 1]);
    }
  }

  /** Listing the buckets one after the other lists every index below `n` once. */
  lemma FlatPermutes(buckets: seq<B.Group>, n: nat)
    requires B.Elements(buckets) == multiset(B.Indices(n))
    ensures forall k :: 0 <= k < |Flat(buckets)| ==> Flat(buckets)[k] < n
    ensures forall x :: 0 <= x < n ==> multiset(Flat(buckets))[x] == 1
    ensures |Flat(buckets)| == n
  {
    FlatElements(buckets);
    B.CountUpTo(n);
    var all := B.Indices(n);
    forall k | 0 <= k < |Flat(buckets)| ensures Flat(buckets)[k] < n {
      assert Flat(buckets)[k] in multiset(all);
    }
    assert |multiset(Flat(buckets))| == |multiset(all)|;
  }

  lemma WiredPermuted(a: seq<Shape>, b: seq<Shape>)
    requires multiset(a) == multiset(b) && SeparateAll(a) && SeparateAll(b)
    ensures WiredAll(a) ==> WiredAll(b)
    ensures Attached(a, null) ==> Attached(b, null)
    ensures HeadSet(a) == HeadSet(b)
  {
    forall k | 0 <= k < |b| ensures b[k] in a {
      assert b[k] in multiset(b);
    }
    forall k | 0 <= k < |a| ensures a[k] in b {
      assert a[k] in multiset(a);
    }
  }

  /** The nodes of one bucket. */
  function Members(nodes: seq<PsiTreeNode>, bucket: B.Group): (m: seq<PsiTreeNode>)
    requires forall k :: 0 <= k < |bucket| ==> bucket[k] < |nodes|
    ensures |m| == |bucket| && forall k :: 0 <= k < |bucket| ==> m[k] == nodes[bucket[k]]
  {
    seq(|bucket|, k requires 0 <= k < |bucket| => nodes[bucket[k]])
  }

  /** The root of a graft is a new node or the head of an input. */
  lemma RootSource(root: PsiTreeNode, t: Shape, ts: seq<Shape>, made: set<PsiTreeNode>, next: nat, next': nat)
    requires Built(root, t, ts, made, next, next')
    ensures root in made || root in HeadSet(ts)
  {
    FrontierSingle(t, made);
    if root !in made {
      assert multiset([t]) == multiset(ts);
      assert t in multiset([t]);
      var k :| 0 <= k < |ts| && ts[k] == t;
    }
  }

  /** Buckets `[..i]` are built into the trees `gs`. */
  ghost predicate BucketsDone(us: seq<Shape>, pos: nat, gs: seq<Shape>, made: set<PsiTreeNode>) {
    pos <= |us| && Grafted(gs, us[..pos], made) && HeadSet(gs) <= made + HeadSet(us)
  }

  lemma BucketStart(us: seq<Shape>, next: nat)
    requires SeparateAll(us)
    ensures BucketsDone(us, 0, [], {}) && SeparateAll([]) && WiredAll([]) && Attached([], null) && us[0..] == us
    ensures Heads([]) == [] && Numbered({}, next, next)
  {
    EmptyCover(null, next, 2);
    GraftSelf([]);
    assert us[..0] == [];
  }

  /** One more bucket: the slice `[pos, end)` of the inputs becomes the tree `t`. */
  lemma BucketStep(us: seq<Shape>, pos: nat, end: nat, gs: seq<Shape>, made: set<PsiTreeNode>,
                   t: Shape, more: set<PsiTreeNode>)
    requires BucketsDone(us, pos, gs, made) && SeparateAll(us) && pos <= end <= |us|
    requires Grafted([t], us[pos..end], more) && (t.node in more || t.node in HeadSet(us[pos..end]))
    requires more !! made && more !! NodesOf(us) && made !! NodesOf(us)
    ensures BucketsDone(us, end, gs + [t], made + more) && SeparateAll(gs + [t])
  {
    hide Grafted, NodesOf, SeparateAll, HeadSet;
    PrefixOf(us, pos, end);
    assert us[..pos] + us[pos..end] == us[..end];
    GraftConcat(gs, us[..pos], made, [t], us[pos..end], more);
    GraftParts(gs + [t], us[..end], made + more);
    HeadOne(t);
    NodesConcat(gs, [t]);
  }

  lemma HeadOne(t: Shape)
    ensures HeadSet([t]) == {t.node} && NodesOf([t]) == Nodes(t)
  {
    LeavesOne(t);
    assert [t][0].node in HeadSet([t]);
  }

  lemma BuiltParts(root: PsiTreeNode, t: Shape, ts: seq<Shape>, made: set<PsiTreeNode>, next: nat, next': nat)
    requires Built(root, t, ts, made, next, next')
    ensures t.node == root && root.parent == null && Separate(t) && Wired(t)
    ensures Grafted([t], ts, made) && Numbered(made, next, next') && Nodes(t) == NodesOf(ts) + made
  {
    LeavesOne(t);
  }

  lemma GraftParts(gs: seq<Shape>, ts: seq<Shape>, made: set<PsiTreeNode>)
    requires Grafted(gs, ts, made)
    ensures SeparateAll(gs) && SeparateAll(ts) && NodesOf(gs) == NodesOf(ts) + made && made !! NodesOf(ts)
  {
  }

  /** The inputs, reordered bucket by bucket. */
  lemma InBucketOrder(nodes: seq<PsiTreeNode>, ts: seq<Shape>, buckets: seq<B.Group>)
    requires Inputs(nodes, ts) && B.Elements(buckets) == multiset(B.Indices(|nodes|))
    ensures forall k :: 0 <= k < |Flat(buckets)| ==> Flat(buckets)[k] < |ts|
    ensures var us := Sel(ts, Flat(buckets));
            && |us| == |nodes| && multiset(us) == multiset(ts)
            && SeparateAll(us) && WiredAll(us) && Attached(us, null)
            && HeadSet(us) == HeadSet(ts) && NodesOf(us) == NodesOf(ts)
  {
    FlatPermutes(buckets, |nodes|);
    var us := Sel(ts, Flat(buckets));
    SelPermutes(ts, Flat(buckets));
    SeparatePermuted(ts, us);
    WiredPermuted(ts, us);
    OrderIrrelevant(ts, us, {});
  }

  lemma {:induction false} FlatSlice(buckets: seq<B.Group>, k: nat)
    requires k < |buckets|
    ensures var pos := |Flat(buckets[..k])|;
            && pos + |buckets[k]| <= |Flat(buckets)|
            && Flat(buckets)[pos..pos + |buckets[k]|] == buckets[k]
            && |Flat(buckets[..k + 1])| == pos + |buckets[k]|
    decreases |buckets|
  {
    var init := buckets[..|buckets| - 1];
    assert buckets[..k + 1][..k] == buckets[..k] && buckets[..k + 1][k] == buckets[k];
    if k < |init| {
      FlatSlice(init, k);
      assert init[..k] == buckets[..k] && init[..k + 1] == buckets[..k + 1];
    } else {
      assert buckets[..k] == init;
    }
  }

  /** The members of bucket `k` are the heads of its slice. */
  lemma BucketSlice(nodes: seq<PsiTreeNode>, ts: seq<Shape>, us: seq<Shape>, buckets: seq<B.Group>, k: nat, pos: nat,
                    end: nat)
    requires Heads(ts) == nodes && k < |buckets| && buckets[k] != []
    requires forall j :: 0 <= j < |Flat(buckets)| ==> Flat(buckets)[j] < |ts|
    requires us == Sel(ts, Flat(buckets)) && pos == |Flat(buckets[..k])| && end == pos + |buckets[k]|
    ensures end <= |us| && pos < end && end == |Flat(buckets[..k + 1])|
    ensures forall j :: 0 <= j < |buckets[k]| ==> buckets[k][j] < |nodes|
    ensures Heads(us[pos..end]) == Members(nodes, buckets[k])
    ensures Inside(buckets[k], |ts|) && us[pos..end] == Sel(ts, buckets[k])
  {
    FlatSlice(buckets, k);
    var b, flat := buckets[k], Flat(buckets);
    forall j | 0 <= j < |b| ensures b[j] == flat[pos + j] {
      assert flat[pos..end][j] == b[j];
    }
  }

  /** Build large inputs bucket by bucket, then build the bucket roots. */
  method BuildBucketed(nodes: seq<PsiTreeNode>, next: nat, l: Limits, o: Oracle, ghost ts: seq<Shape>)
    returns (root: PsiTreeNode, next': nat, merges: nat, ghost t: Shape, ghost made: set<PsiTreeNode>,
        ghost w: Growth)
    requires Inputs(nodes, ts) && OracleOk(o) && LimitsOk(l) && |nodes| > l.exactMaxLeaves
    modifies HeadSet(ts)`parent
    ensures Built(root, t, ts, made, next, next') && fresh(made) && NoText(made)
    ensures merges == |nodes| - 1 && GrownAs(t, ts, next, next', l, o, w)
    decreases |nodes|, 1
  {
    hide Inputs, SeparateAll, WiredAll, NodesOf, Attached, HeadSet, Heads, BucketsDone, Numbered, Built, OracleOk,
         Flat, Grafted,
         B.Bounded, B.Proper, B.Sorted, B.InRange, B.Elements, B.Buckets, Nodes, Wired, Separate, Orphans, Sel,
         GrownAs, PartsGrown;
    InputParts(nodes, ts);
    assert allocated(NodesOf(ts)) && allocated(HeadSet(ts));
    LabelsOk(o, next);
    var buckets := B.SplitPsiBuckets(|nodes|, l.bucketSize, o.labels(next));
    InBucketOrder(nodes, ts, buckets);
    BucketSizes(buckets, l.bucketSize);
    ghost var us := Sel(ts, Flat(buckets));
    var roots, n, m, gs, grown, starts, parts := BuildBuckets(nodes, buckets, next, l, o, ts, us);
    BucketsWhole(us, ts, roots, gs, grown);
    ghost var top;
    root, next', merges, t, made, top := JoinRoots(roots, n, l, o, gs, ts, grown, next);
    GrownBucketed(t, ts, buckets, next, n, next', l, o, gs, starts, parts, top);
    w := Bucketed(buckets, gs, starts, parts, top);
    merges := m + merges;
  }

  lemma LabelsOk(o: Oracle, next: nat)
    requires OracleOk(o)
    ensures B.InRange(o.labels(next))
  {
  }

  lemma BucketSizes(buckets: seq<B.Group>, size: nat)
    requires B.Proper(buckets) && B.Bounded(buckets, size)
    ensures forall k :: 0 <= k < |buckets| ==> buckets[k] != [] && |buckets[k]| <= size
  {
  }

  /** Take the only bucket root, or build a tree over several. */
  method JoinRoots(roots: seq<PsiTreeNode>, next: nat, l: Limits, o: Oracle, ghost gs: seq<Shape>, ghost ts: seq<Shape>,
                   ghost grown: set<PsiTreeNode>, ghost start: nat)
    returns (root: PsiTreeNode, next': nat, merges: nat, ghost t: Shape, ghost made: set<PsiTreeNode>,
        ghost w: Growth)
    requires Inputs(roots, gs) && Grafted(gs, ts, grown) && Numbered(grown, start, next) && OracleOk(o) && LimitsOk(l)
    requires NoText(grown)
    modifies HeadSet(gs)`parent
    ensures Built(root, t, ts, made, start, next') && fresh(made - grown) && NoText(made)
    ensures merges == |roots| - 1 && GrownAs(t, gs, next, next', l, o, w)
    decreases |roots|, 3
  {
    hide Inputs, Grafted, Numbered, Built, OracleOk, HeadSet, GrownAs;
    if |roots| == 1 {
      SingleRoot(roots, gs, ts, grown, start, next);
      GrownGiven(gs[0], next, l, o);
      root, next', merges, t, made, w := roots[0], next, 0, gs[0], grown, Given;
    } else {
      ghost var more;
      root, next', merges, t, more, w := BuildFromNodes(roots, next, l, o, gs);
      BuiltOver(root, t, gs, ts, grown, more, start, next, next');
      made := grown + more;
    }
  }

  lemma BucketsWhole(us: seq<Shape>, ts: seq<Shape>, roots: seq<PsiTreeNode>, gs: seq<Shape>, made: set<PsiTreeNode>)
    requires BucketsDone(us, |us|, gs, made) && multiset(us) == multiset(ts) && SeparateAll(ts)
    requires Heads(gs) == roots && WiredAll(gs) && Attached(gs, null) && roots != []
    ensures Grafted(gs, ts, made) && HeadSet(gs) <= made + HeadSet(us) && Inputs(roots, gs)
  {
    assert us[..|us|] == us;
    GraftPermuted(gs, us, ts, made);
  }

  lemma SingleRoot(roots: seq<PsiTreeNode>, gs: seq<Shape>, ts: seq<Shape>, made: set<PsiTreeNode>, next: nat,
                   next': nat)
    requires Inputs(roots, gs) && |roots| == 1 && Grafted(gs, ts, made) && Numbered(made, next, next')
    ensures |gs| == 1 && gs == [gs[0]] && Built(roots[0], gs[0], ts, made, next, next')
  {
    assert gs == [gs[0]];
    WiredOne(gs[0]);
  }

  /** A tree built over trees that were built over the inputs. */
  lemma BuiltOver(root: PsiTreeNode, t: Shape, gs: seq<Shape>, ts: seq<Shape>, made: set<PsiTreeNode>,
                  more: set<PsiTreeNode>,
                  next: nat, mid: nat, next': nat)
    requires Grafted(gs, ts, made) && Numbered(made, next, mid) && Built(root, t, gs, more, mid, next')
    ensures Built(root, t, ts, made + more, next, next')
  {
    hide Grafted;
    GraftTrans([t], gs, ts, made, more);
    NumberedUnion(made, more, next, mid, next');
  }

  /** Build every bucket; the trees stand over the inputs in bucket order. */
  method BuildBuckets(nodes: seq<PsiTreeNode>, buckets: seq<B.Group>, next: nat, l: Limits, o: Oracle,
                      ghost ts: seq<Shape>, ghost us: seq<Shape>)
    returns (roots: seq<PsiTreeNode>, next': nat, merges: nat, ghost gs: seq<Shape>, ghost made: set<PsiTreeNode>,
        ghost starts: seq<nat>, ghost parts: seq<Growth>)
    requires Heads(ts) == nodes && OracleOk(o) && LimitsOk(l) && |nodes| > l.exactMaxLeaves
    requires forall k :: 0 <= k < |buckets| ==> buckets[k] != [] && |buckets[k]| <= l.bucketSize
    requires forall j :: 0 <= j < |Flat(buckets)| ==> Flat(buckets)[j] < |ts|
    requires us == Sel(ts, Flat(buckets)) && SeparateAll(us) && WiredAll(us) && Attached(us, null)
    modifies HeadSet(us)`parent
    ensures Heads(gs) == roots && |roots| == |buckets| && BucketsDone(us, |us|, gs, made)
    ensures SeparateAll(gs) && WiredAll(gs) && Attached(gs, null)
    ensures fresh(made) && made !! NodesOf(us) && Numbered(made, next, next') && NoText(made)
    ensures merges + |buckets| == |us|
    ensures PartsGrown(gs, ts, buckets, next, starts, l, o, parts) && |starts| == |buckets| + 1
    ensures |gs| == |buckets| && starts[|buckets|] == next'
    decreases |nodes|, 0
  {
    hide SeparateAll, WiredAll, NodesOf, Attached, HeadSet, Heads, BucketsDone, Numbered, Built, OracleOk, Inputs,
         Flat, Nodes, Wired, Separate, NoText, PartsGrown, GrownAs, Sel;
    ghost var all := NodesOf(us);
    assert allocated(all);
    roots, next', merges, gs, made, starts, parts := [], next, 0, [], {}, [next], [];
    PartsNone(ts, buckets, next, l, o);
    assert NoText({}) by { NoTextUnion({}, {}); }
    ghost var pos := 0;
    BucketStart(us, next);
    FlatEnds(buckets);
    for k := 0 to |buckets|
      invariant pos == |Flat(buckets[..k])| && pos <= |us| && merges + k == pos
      invariant Heads(gs) == roots && |roots| == k && BucketsDone(us, pos, gs, made)
      invariant PartsGrown(gs, ts, buckets, next, starts, l, o, parts)
      invariant |gs| == k && |starts| == k + 1 && starts[k] == next'
      invariant SeparateAll(gs) && WiredAll(gs) && Attached(gs, null)
      invariant SeparateAll(us[pos..]) && WiredAll(us[pos..]) && Attached(us[pos..], null)
      invariant fresh(made) && made !! all && Numbered(made, next, next') && NoText(made)
    {
      ghost var end := pos + |buckets[k]|;
      BucketSlice(nodes, ts, us, buckets, k, pos, end);
      ghost var b, rest := us[pos..end], us[end..];
      CutInputs(us, pos, end, Members(nodes, buckets[k]));
      DoneNodes(us, pos, gs, made);
      assert allocated(NodesOf(gs)) && allocated(NodesOf(rest));
      var r, n, m, t, more, w := BuildFromNodes(Members(nodes, buckets[k]), next', l, o, b);
      PartsSnoc(gs, ts, buckets, next, starts, l, o, parts, t, next', n, w);
      starts, parts := starts + [n], parts + [w];
      assert more !! made && more !! all;
      NoTextUnion(made, more);
      BucketBuilt(us, pos, end, gs, made, roots, r, t, more, next, next', n);
      roots, next', merges, gs, made, pos := roots + [r], n, merges + m, gs + [t], made + more, end;
    }
  }

  /** The tree of one more bucket joins the trees built so far. */
  lemma BucketBuilt(us: seq<Shape>, pos: nat, end: nat, gs: seq<Shape>, made: set<PsiTreeNode>, roots: seq<PsiTreeNode>,
                    r: PsiTreeNode, t: Shape, more: set<PsiTreeNode>, next: nat, mid: nat, next': nat)
    requires BucketsDone(us, pos, gs, made) && SeparateAll(us) && pos <= end <= |us| && Heads(gs) == roots
    requires SeparateAll(gs) && WiredAll(gs) && Attached(gs, null) && Built(r, t, us[pos..end], more, mid, next')
    requires more !! made && more !! NodesOf(us) && made !! NodesOf(us) && Numbered(made, next, mid)
    ensures BucketsDone(us, end, gs + [t], made + more) && Heads(gs + [t]) == roots + [r]
    ensures SeparateAll(gs + [t]) && WiredAll(gs + [t]) && Attached(gs + [t], null)
    ensures Numbered(made + more, next, next')
  {
    hide SeparateAll, WiredAll, NodesOf, Attached, HeadSet, Heads, BucketsDone, Numbered, Built, Nodes, Wired,
         Separate, Grafted;
    var b := us[pos..end];
    BuiltParts(r, t, b, more, mid, next');
    NumberedUnion(made, more, next, mid, next');
    RootSource(r, t, b, more, mid, next');
    BucketStep(us, pos, end, gs, made, t, more);
    WiredSingle(t);
    WiredConcat(gs, [t]);
    AttachedSingle(t, null);
    AttachedConcat(gs, [t], null);
    HeadsSnoc(gs, t);
  }

  lemma FlatEnds(buckets: seq<B.Group>)
    ensures Flat(buckets[..0]) == [] && buckets[..|buckets|] == buckets
  {
  }

  /** A slice of separate, linked, parentless inputs, and what is left of them. */
  lemma CutInputs(us: seq<Shape>, pos: nat, end: nat, members: seq<PsiTreeNode>)
    requires pos < end <= |us| && SeparateAll(us) && Heads(us[pos..end]) == members && members != []
    requires SeparateAll(us[pos..]) && WiredAll(us[pos..]) && Attached(us[pos..], null)
    ensures Inputs(members, us[pos..end])
    ensures SeparateAll(us[end..]) && WiredAll(us[end..]) && Attached(us[end..], null)
    ensures HeadSet(us[pos..end]) <= HeadSet(us) && HeadSet(us[pos..end]) <= NodesOf(us[pos..end])
    ensures HeadSet(us[end..]) <= NodesOf(us[end..])
    ensures NodesOf(us[..pos]) <= NodesOf(us) && NodesOf(us[pos..end]) <= NodesOf(us)
    ensures NodesOf(us[end..]) <= NodesOf(us)
    ensures NodesOf(us[..pos]) !! NodesOf(us[pos..end]) && NodesOf(us[pos..end]) !! NodesOf(us[end..])
  {
    hide SeparateAll, WiredAll, Attached, NodesOf, HeadSet, Heads;
    SplitThree(us, pos, end);
    PrefixOf(us, pos, end);
    AttachedConcat(us[pos..end], us[end..], null);
    HeadsInNodes(us[pos..end]);
    HeadsInNodes(us[end..]);
  }

  lemma DoneNodes(us: seq<Shape>, pos: nat, gs: seq<Shape>, made: set<PsiTreeNode>)
    requires BucketsDone(us, pos, gs, made)
    ensures pos <= |us| && NodesOf(gs) == NodesOf(us[..pos]) + made && HeadSet(gs) <= NodesOf(gs)
  {
    HeadsInNodes(gs);
  }

  /** Exact building for small inputs, bucketed building for large ones. */
  method BuildFromNodes(nodes: seq<PsiTreeNode>, next: nat, l: Limits, o: Oracle, ghost ts: seq<Shape>)
    returns (root: PsiTreeNode, next': nat, merges: nat, ghost t: Shape, ghost made: set<PsiTreeNode>,
        ghost w: Growth)
    requires Inputs(nodes, ts) && OracleOk(o) && LimitsOk(l)
    modifies HeadSet(ts)`parent
    ensures Built(root, t, ts, made, next, next') && fresh(made) && NoText(made)
    ensures merges == |nodes| - 1
    ensures GrownAs(t, ts, next, next', l, o, w)
    decreases |nodes|, 2
  {
    hide Built, GrownAs, OracleOk, LinkedAs;
    assert |ts| == |nodes| by { InputParts(nodes, ts); }
    if |nodes| <= l.exactMaxLeaves {
      ghost var names;
      root, next', merges, t, made, names := BuildExact(nodes, next, o, ts);
      if |nodes| == 1 {
        GrownGiven(t, next, l, o);
        w := Given;
      } else {
        GrownExact(t, ts, next, next', l, o, names, made);
        w := Exact(names, made);
      }
    } else {
      root, next', merges, t, made, w := BuildBucketed(nodes, next, l, o, ts);
    }
  }
}
