/** `_PsiUnionFind` as the program runs it: ranks and the compact parent array are
    fixed-size arrays, parent chains are lists that `Find` extends lazily. */
module PsiUnionFind {
  import opened PsiForest

  datatype Option<+T> = None | Some(value: T)

  function Last(s: seq<nat>): nat
    requires s != []
  {
    s[|s| - 1]
  }

  /** An index pulled back to the end of a list when it runs past it. */
  function Clamped(idx: nat, length: nat): nat
    requires length > 0
  {
    if idx >= length then length - 1 else idx
  }

  function OrderedExtended(target: seq<nat>, values: seq<nat>): seq<nat>
    decreases |values|
  {
    if values == [] then target
    else OrderedExtended(if values[0] in target then target else target + [values[0]], values[1..])
  }

  lemma {:induction false} OrderedExtendedSnoc(target: seq<nat>, values: seq<nat>, v: nat)
    ensures var e := OrderedExtended(target, values);
            OrderedExtended(target, values + [v]) == if v in e then e else e + [v]
    decreases |values|
  {
    if values == [] {
    } else {
      OrderedExtendedSnoc(if values[0] in target then target else target + [values[0]], values[1..], v);
      assert (values + [v])[1..] == values[1..] + [v];
    }
  }

  /** Extending a prefix of a duplicate-free list by that list completes it. */
  lemma {:induction false} ExtendCompletes(target: seq<nat>, values: seq<nat>, k: nat)
    requires k <= |values| && k <= |target| && target == values[..k] + target[k..]
    requires forall a, b :: 0 <= a < b < |values| ==> values[a] != values[b]
    requires |target| == k || target <= values
    ensures OrderedExtended(target, values[k..]) == values
    decreases |values| - k
  {
    if k < |values| {
      var rest := values[k..];
      assert rest[1..] == values[k + 1..];
      if |target| == k {
        assert rest[0] !in target;
        ExtendCompletes(target + [rest[0]], values, k + 1);
      } else {
        assert rest[0] == target[k];
        ExtendCompletes(target, values, k + 1);
      }
    } else {
      assert target == values;
    }
  }

  /** Extending by a disjoint duplicate-free list appends all of it. */
  lemma {:induction false} ExtendAppends(target: seq<nat>, values: seq<nat>)
    requires forall a, b :: 0 <= a < b < |values| ==> values[a] != values[b]
    requires forall a :: 0 <= a < |values| ==> values[a] !in target
    ensures OrderedExtended(target, values) == target + values
    decreases |values|
  {
    if values == [] {
    } else {
      ExtendAppends(target + [values[0]], values[1..]);
      assert target + [values[0]] + values[1..] == target + values;
    }
  }

  /** What `Find` returns once a chain is complete: the path to the root, without the
      leaf itself when that leaf has never won a union. */
  ghost function FullChain(f: Forest, x: nat): (c: seq<nat>)
    requires Shaped(f) && x < |f.rank|
    ensures c != []
  {
    if f.rank[x] == 0 && f.up[x] != x then Path(f, f.up[x]) else Path(f, x)
  }

  /** A cached chain is a prefix of the full one, long enough to name the next ancestor. */
  ghost predicate ChainOk(f: Forest, x: nat, chain: seq<nat>)
    requires Shaped(f) && x < |f.rank|
  {
    if f.rank[x] == 0 && f.up[x] == x then chain == []
    else chain != [] && chain <= FullChain(f, x) && (f.rank[x] > 0 && f.up[x] != x ==> |chain| >= 2)
  }

  ghost predicate ChainsOk(f: Forest, chains: seq<seq<nat>>) {
    && Shaped(f) && |chains| == |f.rank|
    && forall x {:trigger chains[x]} :: 0 <= x < |chains| ==> ChainOk(f, x, chains[x])
  }

  /** The concrete lists and arrays of a union-find over `n` leaves stand for forest `f`. */
  ghost predicate Represents(f: Forest, n: nat, rank: seq<nat>, chains: seq<seq<nat>>,
                             ids: seq<seq<nat>>, next: nat, tree: seq<int>)
  {
    && PsiForest.Valid(f) && Frugal(f)
    && |f.rank| == n && rank == f.rank && ids == f.ids && next == |f.owner|
    && |tree| == (if n == 0 then 1 else 2 * n - 1)
    && ChainsOk(f, chains)
    && TreeOk(f, tree)
  }

  /** The compact array holds the parent links, and -1 in the entries not used yet. */
  ghost predicate TreeOk(f: Forest, tree: seq<int>)
    requires PsiForest.Valid(f)
  {
    && (|f.rank| > 0 ==> |f.owner| <= |tree|)
    && (forall id {:trigger tree[id]} :: 0 <= id < |tree| ==>
          tree[id] == if id < |f.owner| then Parent(f, id) else -1)
  }

  lemma Basics(f: Forest, n: nat, rank: seq<nat>, chains: seq<seq<nat>>, ids: seq<seq<nat>>, next: nat, tree: seq<int>)
    requires Represents(f, n, rank, chains, ids, next, tree)
    ensures PsiForest.Valid(f) && Shaped(f) && |f.rank| == n && rank == f.rank && ids == f.ids && |ids| == n
    ensures ChainsOk(f, chains) && |chains| == n && next == |f.owner|
    ensures forall x :: 0 <= x < n ==> ChainOk(f, x, chains[x])
  {
  }

  lemma SwapChains(f: Forest, n: nat, rank: seq<nat>, chains: seq<seq<nat>>, ids: seq<seq<nat>>, next: nat,
                   tree: seq<int>,
                   chains': seq<seq<nat>>)
    requires Represents(f, n, rank, chains, ids, next, tree) && ChainsOk(f, chains')
    ensures Represents(f, n, rank, chains', ids, next, tree)
  {
  }

  /** `d` is `c` with some chains grown. */
  ghost predicate Extends(c: seq<seq<nat>>, d: seq<seq<nat>>) {
    |c| == |d| && forall x {:trigger d[x]} :: 0 <= x < |c| ==> c[x] <= d[x]
  }

  lemma ExtendsStep(b: seq<seq<nat>>, c: seq<seq<nat>>, d: seq<seq<nat>>, f: Forest, i: nat)
    requires Extends(b, c) && ChainsOk(f, c) && i < |c| && f.up[i] != i
    requires d == c[i := FullChain(f, i)]
    ensures Extends(b, d) && ChainsOk(f, d)
  {
    FullChainFacts(f, i);
    forall x | 0 <= x < |d| ensures b[x] <= d[x] && ChainOk(f, x, d[x]) {
      assert b[x] <= c[x] && ChainOk(f, x, c[x]);
    }
  }

  lemma InitRepresents(n: nat, rank: seq<nat>, chains: seq<seq<nat>>, ids: seq<seq<nat>>, tree: seq<int>)
    requires |rank| == |chains| == |ids| == n && |tree| == if n == 0 then 1 else 2 * n - 1
    requires forall x :: 0 <= x < n ==> rank[x] == 0 && chains[x] == [] && ids[x] == [x]
    requires forall id :: 0 <= id < |tree| ==> tree[id] == -1
    ensures Represents(Init(n), n, rank, chains, ids, n, tree)
  {
    InitValid(n);
    InitFrugal(n);
    forall id | 0 <= id < n ensures Parent(Init(n), id) == -1 { InitLinks(n, id); }
    assert rank == Init(n).rank && ids == Init(n).ids;
  }

  method Filled<T>(length: nat, value: T) returns (a: array<T>)
    ensures fresh(a) && a.Length == length && forall k :: 0 <= k < length ==> a[k] == value
  {
    a := new T[length](_ => value);
  }

  class PsiUnionFind {
    const n: nat
    const rank: array<nat>
    const tree: array<int>
    var parentChains: seq<seq<nat>>
    var nodeIds: seq<seq<nat>>
    var nextId: nat
    ghost var forest: Forest

    ghost predicate Valid()
      reads this, rank, tree
    {
      Represents(forest, n, rank[..], parentChains, nodeIds, nextId, tree[..])
    }

    constructor (n: nat)
      ensures Valid() && this.n == n && forest == Init(n) && fresh(rank) && fresh(tree)
    {
      this.n := n;
      var ranks := Filled<nat>(n, 0);
      rank := ranks;
      parentChains := seq(n, _ => []);
      nodeIds := seq(n, i => [i]);
      var links := Filled<int>(if n == 0 then 1 else 2 * n - 1, -1);
      tree := links;
      nextId := n;
      forest := Init(n);
      new;
      InitRepresents(n, rank[..], parentChains, nodeIds, tree[..]);
    }

    /** Append the values not yet present, in order. */
    static method OrderedExtend(target: seq<nat>, values: seq<nat>) returns (r: seq<nat>)
      ensures r == OrderedExtended(target, values)
    {
      r := target;
      for k := 0 to |values|
        invariant r == OrderedExtended(target, values[..k])
      {
        OrderedExtendedSnoc(target, values[..k], values[k]);
        assert values[..k + 1] == values[..k] + [values[k]];
        if values[k] !in r {
          r := r + [values[k]];
        }
      }
      assert values[..|values|] == values;
    }

    /** The ancestor chain of `i`; cached chains only ever grow towards the full path. */
    method Find(i: nat) returns (chain: seq<nat>)
      requires Valid() && i < n
      modifies this`parentChains
      ensures Valid()
      ensures chain == FullChain(forest, i)
      ensures Last(chain) == Root(forest, i)
      ensures Extends(old(parentChains), parentChains)
      ensures parentChains[i] == if forest.rank[i] == 0 && forest.up[i] == i then [] else chain
      decreases MaxRank(forest.rank) - forest.rank[i]
    {
      hide Represents, ChainsOk, ChainOk, Extends, FullChain, Path, PsiForest.Valid;
      Basics(forest, n, rank[..], parentChains, nodeIds, nextId, tree[..]);
      chain := parentChains[i];
      CachedChain(forest, i, chain);
      ghost var before := parentChains;
      ExtendsSelf(before);
      if chain == [] || (|chain| == 1 && chain[0] == i) {
        return [i];
      }
      var ancestors: seq<nat>;
      if chain[0] == i {
        ancestors := Find(chain[1]);
      } else {
        ancestors := Find(chain[0]);
      }
      ghost var middle := parentChains;
      Basics(forest, n, rank[..], middle, nodeIds, nextId, tree[..]);
      chain := OrderedExtend(parentChains[i], ancestors);
      ExtendCached(forest, i, middle[i], ancestors);
      ExtendsStep(before, middle, middle[i := chain], forest, i);
      SwapChains(forest, n, rank[..], middle, nodeIds, nextId, tree[..], middle[i := chain]);
      parentChains := parentChains[i := chain];
    }

    /** The first chain index whose rank is greater than `r`. */
    method RankBisectRight(chain: seq<nat>, r: nat) returns (idx: nat)
      requires forall k :: 0 <= k < |chain| ==> chain[k] < rank.Length
      ensures idx <= |chain|
      ensures forall k :: 0 <= k < idx ==> rank[chain[k]] <= r
      ensures idx < |chain| ==> rank[chain[idx]] > r
    {
      idx := 0;
      while idx < |chain| && rank[chain[idx]] <= r
        invariant idx <= |chain|
        invariant forall k :: 0 <= k < idx ==> rank[chain[k]] <= r
      {
        idx := idx + 1;
      }
    }

    /** Write down in the parent array which top now hangs below which node, opening a new node if
        the roots were of one rank. */
    method Build(i: nat, j: nat, insertPoint: Option<nat>)
      requires i < |nodeIds| && j < |nodeIds| && |nodeIds| <= rank.Length
      requires nodeIds[i] != [] && nodeIds[i][|nodeIds[i]| - 1] < tree.Length
      requires match insertPoint
               case Some(p) => p < |nodeIds| && nodeIds[p] != []
               case None => nodeIds[j] != [] && nodeIds[j][|nodeIds[j]| - 1] < tree.Length
      modifies this`nodeIds, this`nextId, tree
      ensures insertPoint.Some? ==>
                && nodeIds == old(nodeIds) && nextId == old(nextId)
                && tree[..] == old(tree[..])[Last(nodeIds[i]) :=
                                 nodeIds[insertPoint.value][Clamped(rank[i] + 1, |nodeIds[insertPoint.value]|)]]
      ensures insertPoint.None? ==>
                && nodeIds == old(nodeIds)[i := old(nodeIds)[i] + [old(nextId)]] && nextId == old(nextId) + 1
                && tree[..] == old(tree[..])[old(Last(nodeIds[i])) := old(nextId)][old(Last(nodeIds[j])) := old(nextId)]
    {
      match insertPoint {
        case Some(p) =>
          var parentIds := nodeIds[p];
          tree[Last(nodeIds[i])] := parentIds[Clamped(rank[i] + 1, |parentIds|)];
        case None =>
          tree[Last(nodeIds[i])] := nextId;
          tree[Last(nodeIds[j])] := nextId;
          nodeIds := nodeIds[i := nodeIds[i] + [nextId]];
          nextId := nextId + 1;
      }
    }

    /** Give `x` a chain holding itself, unless it already has one. */
    method SeedChain(x: nat)
      requires x < |parentChains|
      modifies this`parentChains
      ensures parentChains == old(parentChains)[x := if old(parentChains)[x] == [] then [x] else old(parentChains)[x]]
    {
      if parentChains[x] == [] {
        parentChains := parentChains[x := [x]];
      }
    }

    /** The first ancestor of `j` that outranks `r`, and the chain from there up. */
    method InsertPoint(j: nat, r: nat) returns (p: nat, above: seq<nat>)
      requires Valid() && j < n && forest.rank[Root(forest, j)] > r
      requires parentChains[j] == FullChain(forest, j)
      ensures p == FirstAbove(forest, j, r) && above == Path(forest, p)
    {
      hide Represents, ChainsOk, PsiForest.Valid;
      Basics(forest, n, rank[..], parentChains, nodeIds, nextId, tree[..]);
      var chain := parentChains[j];
      FullChainFacts(forest, j);
      var found := RankBisectRight(chain, r);
      BisectFinds(forest, j, r, chain, found);
      var idx := Clamped(found, |chain|);
      return chain[idx], chain[idx..];
    }

    /** Hang root `a` below the first ancestor of `j` that outranks it. */
    method AttachUnder(a: nat, b: nat, j: nat)
      requires Valid() && a < n && j < n && b == Root(forest, j)
      requires forest.up[a] == a && forest.rank[a] < forest.rank[b]
      requires parentChains[j] == FullChain(forest, j)
      modifies this`parentChains, this`nodeIds, this`nextId, this`forest, tree
      ensures Valid() && forest == Attach(old(forest), a, FirstAbove(old(forest), j, old(forest).rank[a]))
    {
      hide Represents, ChainsOk, PsiForest.Valid;
      Basics(forest, n, rank[..], parentChains, nodeIds, nextId, tree[..]);
      ghost var f, chains, links := forest, parentChains, tree[..];
      var p := AttachChain(a, b, j);
      AttachRepresents(f, n, chains, links, a, p, parentChains[a]);
      TopIsLast(f, a);
      FallbackNeverFires(f, a, p);
      ghost var top, target := Last(nodeIds[a]), nodeIds[p][Clamped(rank[a] + 1, |nodeIds[p]|)];
      Build(a, b, Some(p));
      assert tree[..] == links[top := target];
      forest := Attach(f, a, p);
    }

    /** Let the chain of root `a` continue into the path above its insertion point. */
    method AttachChain(a: nat, b: nat, j: nat) returns (p: nat)
      requires Valid() && a < n && j < n && b == Root(forest, j)
      requires forest.up[a] == a && forest.rank[a] < forest.rank[b]
      requires parentChains[j] == FullChain(forest, j)
      modifies this`parentChains
      ensures p == FirstAbove(forest, j, forest.rank[a])
      ensures parentChains == old(parentChains)[a := OrderedExtended(old(parentChains)[a], Path(forest, p))]
    {
      hide Represents, ChainsOk, PsiForest.Valid;
      Basics(forest, n, rank[..], parentChains, nodeIds, nextId, tree[..]);
      ghost var chains := parentChains;
      assert ChainOk(forest, b, chains[b]);
      SeedChain(b);
      assert parentChains == chains;
      var above;
      p, above := InsertPoint(j, rank[a]);
      var grown := OrderedExtend(parentChains[a], above);
      parentChains := parentChains[a := grown];
    }

    /** Merge the components of two leaves; false when they already share a root. */
    method Union(i: nat, j: nat) returns (added: bool)
      requires Valid() && i < n && j < n
      modifies this, rank, tree
      ensures Valid() && forest == Unite(old(forest), i, j)
      ensures added <==> Root(old(forest), i) != Root(old(forest), j)
    {
      hide Represents, ChainsOk, PsiForest.Valid;
      Basics(forest, n, rank[..], parentChains, nodeIds, nextId, tree[..]);
      ghost var f := forest;
      var chainI := Find(i);
      var rootI := Last(chainI);
      ghost var before := parentChains;
      Basics(forest, n, rank[..], parentChains, nodeIds, nextId, tree[..]);
      var chainJ := Find(j);
      Basics(forest, n, rank[..], parentChains, nodeIds, nextId, tree[..]);
      var rootJ := Last(chainJ);
      FullStays(f, before, parentChains, i);
      if rootI == rootJ {
        return false;
      }
      assert rootI == Root(f, i) && rootJ == Root(f, j);
      if rank[rootI] < rank[rootJ] {
        assert Unite(f, i, j) == Attach(f, rootI, FirstAbove(f, j, f.rank[rootI]));
        AttachUnder(rootI, rootJ, j);
      } else if rank[rootI] > rank[rootJ] {
        assert Unite(f, i, j) == Attach(f, rootJ, FirstAbove(f, i, f.rank[rootJ]));
        AttachUnder(rootJ, rootI, i);
      } else {
        assert Unite(f, i, j) == Merge(f, rootI, rootJ);
        MergeRoots(rootI, rootJ, i);
      }
      added := true;
    }

    /** Hang root `b` below root `a`, the root of `i`, under a new top node. */
    method MergeRoots(a: nat, b: nat, i: nat)
      requires Valid() && a < n && b < n && i < n && a != b && a == Root(forest, i)
      requires forest.up[b] == b && forest.rank[a] == forest.rank[b]
      requires parentChains[i] == [] || parentChains[i] == FullChain(forest, i)
      modifies this`parentChains, this`nodeIds, this`nextId, this`forest, rank, tree
      ensures Valid() && forest == Merge(old(forest), a, b)
    {
      hide Represents, ChainsOk, PsiForest.Valid;
      Basics(forest, n, rank[..], parentChains, nodeIds, nextId, tree[..]);
      ghost var f, chains, links := forest, parentChains, tree[..];
      MergeChain(a, b, i);
      MergeRepresents(f, n, chains, links, a, b, parentChains[b]);
      TopIsLast(f, a);
      TopIsLast(f, b);
      rank[a] := rank[a] + 1;
      assert rank[..] == f.rank[a := f.rank[a] + 1];
      Build(a, b, None);
      forest := Merge(f, a, b);
    }

    /** Seed the chain of root `a` and let root `b` continue into it. */
    method MergeChain(a: nat, b: nat, i: nat)
      requires ChainsOk(forest, parentChains) && i < |forest.rank| && b < |forest.rank| && a == Root(forest, i)
      requires a != b
      requires parentChains[i] == [] || parentChains[i] == FullChain(forest, i)
      modifies this`parentChains
      ensures var old' := old(parentChains); parentChains == old'[a := [a]][b := OrderedExtended(old'[b], [a])]
    {
      SeedRoot(forest, a, i, parentChains);
      SeedChain(a);
      var grown := OrderedExtend(parentChains[b], parentChains[i][|parentChains[i]| - 1..]);
      parentChains := parentChains[b := grown];
    }
  }

  lemma FullChainFacts(f: Forest, x: nat)
    requires Shaped(f) && x < |f.rank|
    ensures var c := FullChain(f, x);
            && (forall k :: 0 <= k < |c| ==> c[k] < |f.rank|)
            && (forall k, m :: 0 <= k < m < |c| ==> f.rank[c[k]] < f.rank[c[m]])
            && c[|c| - 1] == Root(f, x)
            && (f.up[x] == x ==> c == [x])
            && (f.up[x] != x && f.rank[x] > 0 ==> |c| >= 2 && c[0] == x && c[1] == f.up[x])
            && (f.up[x] != x && f.rank[x] == 0 ==> c[0] == f.up[x])
  {
    PathClimbs(f, x);
    PathClimbs(f, f.up[x]);
  }

  /** What a cached chain tells `Find`: whether the leaf is a root, and its next ancestor. */
  lemma CachedChain(f: Forest, x: nat, chain: seq<nat>)
    requires Shaped(f) && x < |f.rank| && ChainOk(f, x, chain)
    ensures f.up[x] == x <==> (chain == [] || (|chain| == 1 && chain[0] == x))
    ensures f.up[x] == x ==> FullChain(f, x) == [x] && chain == (if f.rank[x] == 0 then [] else [x])
    ensures f.up[x] == x ==> Root(f, x) == x
    ensures f.up[x] != x ==> f.up[x] == if chain[0] == x then chain[1] else chain[0]
    ensures f.up[x] != x ==> Last(FullChain(f, x)) == Root(f, x)
  {
    FullChainFacts(f, x);
  }

  lemma ExtendsSelf(c: seq<seq<nat>>)
    ensures Extends(c, c)
  {
  }

  lemma ExtendCached(f: Forest, x: nat, chain: seq<nat>, ancestors: seq<nat>)
    requires Shaped(f) && x < |f.rank| && f.up[x] != x
    requires ChainOk(f, x, chain) && ancestors == FullChain(f, f.up[x])
    ensures OrderedExtended(chain, ancestors) == FullChain(f, x)
  {
    var full := FullChain(f, x);
    FullChainFacts(f, x);
    assert ancestors == Path(f, f.up[x]);
    if f.rank[x] == 0 {
      ExtendCompletes(chain, full, 0);
      assert full[0..] == ancestors;
    } else {
      assert full[1..] == ancestors;
      ExtendCompletes(chain, full, 1);
    }
  }

  /** The linear scan of a full chain stops at the first ancestor of higher rank. */
  lemma BisectFinds(f: Forest, j: nat, r: nat, chain: seq<nat>, idx: nat)
    requires Shaped(f) && j < |f.rank| && chain == FullChain(f, j) && f.rank[Root(f, j)] > r
    requires idx <= |chain| && forall k :: 0 <= k < |chain| ==> chain[k] < |f.rank|
    requires forall k :: 0 <= k < idx ==> f.rank[chain[k]] <= r
    requires idx < |chain| ==> f.rank[chain[idx]] > r
    ensures idx < |chain| && chain[idx] == FirstAbove(f, j, r)
    ensures chain[idx..] == Path(f, chain[idx])
  {
    FullChainFacts(f, j);
    var x := if f.rank[j] == 0 && f.up[j] != j then f.up[j] else j;
    FirstAboveOnPath(f, x, r, idx);
    PathSuffix(f, x, idx);
  }

  lemma ChainKept(f: Forest, g: Forest, c: nat, t: nat, x: nat, chain: seq<nat>)
    requires Linked(f, g, c, t) && x < |f.rank| && x != c
    requires g.rank[x] == f.rank[x] && ChainOk(f, x, chain)
    ensures ChainOk(g, x, chain)
  {
    LinkPaths(f, g, c, t, x);
    LinkPaths(f, g, c, t, f.up[x]);
  }

  lemma {:induction false} OffPath(f: Forest, t: nat, c: nat)
    requires Shaped(f) && t < |f.rank| && c < |f.rank| && f.up[c] == c && Root(f, t) != c
    ensures c !in Path(f, t)
    decreases MaxRank(f.rank) - f.rank[t]
  {
    if f.up[t] == t {
    } else {
      OffPath(f, f.up[t], c);
    }
  }

  lemma ChainOfLinked(f: Forest, g: Forest, c: nat, t: nat, chain: seq<nat>)
    requires Linked(f, g, c, t) && ChainOk(f, c, chain)
    ensures ChainOk(g, c, OrderedExtended(chain, Path(f, t)))
  {
    hide Path, Root;
    LinkedChain(f, g, c, t, chain);
    PathClimbs(f, t);
    OffPath(f, t, c);
    CachedChain(f, c, chain);
    ExtendAppends(chain, Path(f, t));
  }

  lemma LinkedChain(f: Forest, g: Forest, c: nat, t: nat, chain: seq<nat>)
    requires Linked(f, g, c, t) && ChainOk(f, c, chain)
    ensures FullChain(g, c) == chain + Path(f, t)
    ensures g.rank[c] > 0 ==> chain == [c]
  {
    hide Root, ChainOk;
    CachedChain(f, c, chain);
    LinkPaths(f, g, c, t, c);
    LinkPaths(f, g, c, t, t);
  }

  lemma AttachRepresents(f: Forest, n: nat, chains: seq<seq<nat>>, tree: seq<int>, a: nat, p: nat, grown: seq<nat>)
    requires Represents(f, n, f.rank, chains, f.ids, |f.owner|, tree)
    requires a < n && p < n && f.up[a] == a && f.rank[a] < f.rank[p]
    requires grown == OrderedExtended(chains[a], Path(f, p))
    ensures Top(f, a) < |tree|
    ensures Represents(Attach(f, a, p), n, f.rank, chains[a := grown], f.ids, |f.owner|,
                       tree[Top(f, a) := f.ids[p][f.rank[a] + 1]])
  {
    AttachValid(f, a, p);
    var g := Attach(f, a, p);
    LinkRoots(f, g, a, p);
    AttachChains(f, chains, a, p, grown);
    AttachTree(f, tree, a, p);
    hide ChainsOk, Linked, TreeOk, PsiForest.Labelled, PsiForest.Valid, Top;
  }

  lemma AttachChains(f: Forest, chains: seq<seq<nat>>, a: nat, p: nat, grown: seq<nat>)
    requires PsiForest.Valid(f) && ChainsOk(f, chains)
    requires a < |f.rank| && p < |f.rank| && f.up[a] == a && f.rank[a] < f.rank[p]
    requires grown == OrderedExtended(chains[a], Path(f, p))
    ensures ChainsOk(Attach(f, a, p), chains[a := grown])
  {
    AttachValid(f, a, p);
    hide PsiForest.Labelled;
    var g, chains' := Attach(f, a, p), chains[a := grown];
    forall x {:trigger chains'[x]} | 0 <= x < |chains'| ensures ChainOk(g, x, chains'[x]) {
      if x == a { ChainOfLinked(f, g, a, p, chains[a]); } else { ChainKept(f, g, a, p, x, chains[x]); }
    }
  }

  lemma AttachTree(f: Forest, tree: seq<int>, a: nat, p: nat)
    requires PsiForest.Valid(f) && TreeOk(f, tree) && |f.owner| <= |tree|
    requires a < |f.rank| && p < |f.rank| && f.up[a] == a && f.rank[a] < f.rank[p]
    ensures Top(f, a) < |tree| && PsiForest.Valid(Attach(f, a, p))
    ensures TreeOk(Attach(f, a, p), tree[Top(f, a) := f.ids[p][f.rank[a] + 1]])
  {
    AttachValid(f, a, p);
    var g := Attach(f, a, p);
    forall id | 0 <= id < |f.owner|
      ensures Parent(g, id) == if id == Top(f, a) then f.ids[p][f.rank[a] + 1] else Parent(f, id) {
      AttachLinks(f, a, p, id);
    }
  }

  lemma MergeRepresents(f: Forest, n: nat, chains: seq<seq<nat>>, tree: seq<int>, a: nat, b: nat, grown: seq<nat>)
    requires Represents(f, n, f.rank, chains, f.ids, |f.owner|, tree)
    requires a < n && b < n && a != b && f.up[a] == a && f.up[b] == b && f.rank[a] == f.rank[b]
    requires grown == OrderedExtended(chains[b], [a])
    ensures Top(f, a) < |tree| && Top(f, b) < |tree| && |f.owner| < |tree|
    ensures Represents(Merge(f, a, b), n, f.rank[a := f.rank[a] + 1], chains[a := [a]][b := grown],
                       f.ids[a := f.ids[a] + [|f.owner|]], |f.owner| + 1,
                       tree[Top(f, a) := |f.owner|][Top(f, b) := |f.owner|])
  {
    MergeValid(f, a, b);
    var g := Merge(f, a, b);
    LinkRoots(f, g, b, a);
    NodesFit(g);
    var chains' := chains[a := [a]][b := grown];
    LinkPaths(f, g, b, a, a);
    forall x {:trigger chains'[x]} | 0 <= x < |chains'| ensures ChainOk(g, x, chains'[x]) {
      if x == b { ChainOfLinked(f, g, b, a, chains[b]); } else if x != a { ChainKept(f, g, b, a, x, chains[x]); }
    }
    forall id | 0 <= id <= |f.owner|
      ensures Parent(g, id) == if id == |f.owner| then -1
                               else if id == Top(f, a) || id == Top(f, b) then |f.owner| else Parent(f, id) {
      MergeLinks(f, a, b, id);
    }
  }

  /** Once its root is seeded, the chain of a leaf ends in that root. */
  lemma SeedRoot(f: Forest, a: nat, i: nat, chains: seq<seq<nat>>)
    requires ChainsOk(f, chains) && i < |f.rank| && a == Root(f, i)
    requires chains[i] == [] || chains[i] == FullChain(f, i)
    ensures chains[a] == [] || chains[a] == [a]
    ensures var seeded := chains[a := [a]];
            seeded[i] != [] && seeded[i][|seeded[i]| - 1..] == [a]
  {
    FullChainFacts(f, i);
    FullChainFacts(f, a);
    assert ChainOk(f, a, chains[a]) && ChainOk(f, i, chains[i]);
  }

  lemma TopIsLast(f: Forest, x: nat)
    requires PsiForest.Valid(f) && x < |f.rank|
    ensures |f.ids[x]| == f.rank[x] + 1 && Last(f.ids[x]) == Top(f, x)
  {
  }

  /** The parent of an attached tree is always recorded; the out-of-bounds clamp is dead. */
  lemma FallbackNeverFires(f: Forest, a: nat, p: nat)
    requires PsiForest.Valid(f) && a < |f.rank| && p < |f.rank| && f.rank[a] < f.rank[p]
    ensures f.rank[a] + 1 < |f.ids[p]|
    ensures f.ids[p][Clamped(f.rank[a] + 1, |f.ids[p]|)] == f.ids[p][f.rank[a] + 1]
  {
  }

  /** A chain that was complete stays complete. */
  lemma FullStays(f: Forest, c: seq<seq<nat>>, d: seq<seq<nat>>, x: nat)
    requires Extends(c, d) && ChainsOk(f, c) && ChainsOk(f, d) && x < |c|
    requires c[x] == [] || c[x] == FullChain(f, x)
    ensures d[x] == c[x]
  {
    assert c[x] <= d[x] && ChainOk(f, x, d[x]) && ChainOk(f, x, c[x]);
  }
}
