/** `_split_psi_buckets`: a worklist that splits the node indices into bounded buckets.
    Cluster labels come from numerical code and are an arbitrary function here. */
module PsiBuckets {

  type Group = seq<nat>

  /** The label given to position `k` of a group that is split `fanout` ways. */
  type Labelling = (Group, nat, nat) -> nat

  ghost predicate InRange(lab: Labelling) {
    forall g: Group, f: nat, k: nat {:trigger lab(g, f, k)} :: f > 0 ==> lab(g, f, k) < f
  }

  function Min(a: nat, b: nat): nat { if a < b then a else b }

  function Max(a: nat, b: nat): nat { if a < b then b else a }

  function CeilDiv(a: nat, b: nat): (q: nat)
    requires b > 0
    ensures a <= q * b < a + b
  {
    (a + b - 1) / b
  }

  lemma MulOrder(a: nat, b: nat, c: nat)
    ensures a <= b ==> a * c <= b * c
  {
    if a <= b { assert (b - a) * c >= 0; }
  }

  lemma CeilDivIs(a: nat, b: nat, q: nat)
    requires b > 0 && a <= q * b < a + b
    ensures q == CeilDiv(a, b)
  {
    var r := CeilDiv(a, b);
    assert (q + 1) * b == q * b + b && (r + 1) * b == r * b + b;
    MulOrder(q + 1, r, b);
    MulOrder(r + 1, q, b);
  }

  function Fanout(size: nat, bucketSize: nat): nat
    requires bucketSize > 0
  {
    Min(Min(Max(2, CeilDiv(size, bucketSize)), size), 32)
  }

  ghost predicate Increasing(g: Group) {
    forall i, j :: 0 <= i < j < |g| ==> g[i] < g[j]
  }

  /** All indices in a list of groups, with multiplicity. */
  ghost function Elements(gs: seq<Group>): multiset<nat> {
    if gs == [] then multiset{} else Elements(gs[..|gs| - 1]) + multiset(gs[|gs| - 1])
  }

  ghost predicate Proper(gs: seq<Group>) {
    forall k :: 0 <= k < |gs| ==> gs[k] != [] && Increasing(gs[k])
  }

  ghost predicate SomeLarge(gs: seq<Group>) {
    exists k :: 0 <= k < |gs| && |gs[k]| >= 2
  }

  lemma {:induction false} ElementsConcat(a: seq<Group>, b: seq<Group>)
    ensures Elements(a + b) == Elements(a) + Elements(b)
    decreases |b|
  {
    if b == [] {
      assert a + b == a;
    } else {
      ElementsConcat(a, b[..|b| - 1]);
      assert (a + b)[..|a + b| - 1] == a + b[..|b| - 1];
    }
  }

  lemma ElementsOne(g: Group)
    ensures Elements([g]) == multiset(g)
  {
    assert [g][..0] == [];
  }

  lemma NoElements()
    ensures Elements([]) == multiset{}
  {
  }

  // ---------- splitting one group by label

  /** The members of `g` whose label is `c`, in order. */
  function Pick(g: Group, lab: nat -> nat, c: nat): Group {
    if g == [] then [] else
    var last := |g| - 1;
    Pick(g[..last], lab, c) + if lab(last) == c then [g[last]] else []
  }

  lemma {:induction false} PickOrdered(g: Group, lab: nat -> nat, c: nat)
    requires Increasing(g)
    ensures Increasing(Pick(g, lab, c))
    ensures forall x :: x in Pick(g, lab, c) ==> x in g
    ensures |Pick(g, lab, c)| <= |g|
  {
    if g == [] {
    } else {
      var init := g[..|g| - 1];
      PickOrdered(init, lab, c);
      forall x | x in Pick(init, lab, c) ensures x in g && x < g[|g| - 1] {
        var k :| 0 <= k < |init| && init[k] == x;
        assert g[k] == x;
      }
      var p, q := Pick(init, lab, c), Pick(g, lab, c);
      forall i, j | 0 <= i < j < |q| ensures q[i] < q[j] {
        assert q[i] == p[i] && p[i] in p;
        if j < |p| { assert p[i] < p[j]; }
      }
    }
  }

  ghost function PickBelow(g: Group, lab: nat -> nat, c: nat): Group {
    if g == [] then [] else
    var last := |g| - 1;
    PickBelow(g[..last], lab, c) + if lab(last) < c then [g[last]] else []
  }

  lemma {:induction false} PickNext(g: Group, lab: nat -> nat, c: nat)
    ensures multiset(PickBelow(g, lab, c + 1)) == multiset(PickBelow(g, lab, c)) + multiset(Pick(g, lab, c))
  {
    if g == [] {
    } else {
      PickNext(g[..|g| - 1], lab, c);
    }
  }

  lemma {:induction false} PickAll(g: Group, lab: nat -> nat, c: nat)
    requires forall k: nat :: k < |g| ==> lab(k) < c
    ensures PickBelow(g, lab, c) == g && PickBelow(g, lab, 0) == []
  {
    if g == [] {
    } else {
      PickAll(g[..|g| - 1], lab, c);
      assert g[..|g| - 1] + [g[|g| - 1]] == g;
    }
  }

  /** The non-empty label classes of a group, in label order. */
  function Classes(g: Group, lab: nat -> nat, c: nat): seq<Group> {
    if c == 0 then [] else
    Classes(g, lab, c - 1) + if Pick(g, lab, c - 1) == [] then [] else [Pick(g, lab, c - 1)]
  }

  lemma {:induction false} ClassesElements(g: Group, lab: nat -> nat, c: nat)
    requires Increasing(g)
    ensures Elements(Classes(g, lab, c)) == multiset(PickBelow(g, lab, c))
    ensures Proper(Classes(g, lab, c)) && |Classes(g, lab, c)| <= c
    decreases c
  {
    hide Elements, PickBelow, Pick, Increasing;
    if c == 0 {
      EmptyBelow(g, lab);
      NoElements();
    } else {
      ClassesElements(g, lab, c - 1);
      PickNext(g, lab, c - 1);
      PickOrdered(g, lab, c - 1);
      var before, pick := Classes(g, lab, c - 1), Pick(g, lab, c - 1);
      if pick == [] {
        assert Classes(g, lab, c) == before;
        assert multiset(pick) == multiset{};
      } else {
        assert Classes(g, lab, c) == before + [pick];
        ElementsConcat(before, [pick]);
        ElementsOne(pick);
      }
    }
  }

  lemma {:induction false} EmptyBelow(g: Group, lab: nat -> nat)
    ensures PickBelow(g, lab, 0) == []
  {
    if g == [] {
    } else {
      EmptyBelow(g[..|g| - 1], lab);
    }
  }

  lemma IncreasingSlice(g: Group, i: nat, j: nat)
    requires i <= j <= |g| && Increasing(g)
    ensures Increasing(g[i..j])
  {
  }

  /** Consecutive slices of at most `size` members. */
  function Slices(g: Group, size: nat): seq<Group>
    requires size > 0
    decreases |g|
  {
    if |g| <= size then (if g == [] then [] else [g]) else [g[..size]] + Slices(g[size..], size)
  }

  lemma {:induction false} SlicesElements(g: Group, size: nat)
    requires size > 0 && Increasing(g)
    ensures Elements(Slices(g, size)) == multiset(g) && Proper(Slices(g, size))
    ensures |g| > size ==> |Slices(g, size)| >= 2
    decreases |g|
  {
    hide Elements, Increasing;
    NoElements();
    if |g| <= size {
      if g != [] { ElementsOne(g); }
    } else {
      IncreasingSlice(g, 0, size);
      IncreasingSlice(g, size, |g|);
      assert g[..size] == g[0..size] && g[size..] == g[size..|g|];
      SlicesElements(g[size..], size);
      ElementsOne(g[..size]);
      ElementsConcat([g[..size]], Slices(g[size..], size));
      assert g[..size] + g[size..] == g;
      assert |Slices(g[size..], size)| >= 1;
    }
  }

  /** The pieces a group larger than a bucket is replaced by. */
  function SplitGroup(g: Group, bucketSize: nat, lab: Labelling): seq<Group>
    requires bucketSize > 0
  {
    var fanout := Fanout(|g|, bucketSize);
    var split := Classes(g, (k: nat) => lab(g, fanout, k), fanout);
    if |split| <= 1 then Slices(g, bucketSize) else split
  }

  lemma {:induction false} SizeBounds(gs: seq<Group>)
    requires Proper(gs)
    ensures |Elements(gs)| >= |gs|
    ensures SomeLarge(gs) <==> |Elements(gs)| > |gs|
    decreases |gs|
  {
    if gs == [] {
    } else {
      var init, last := gs[..|gs| - 1], gs[|gs| - 1];
      SizeBounds(init);
      if SomeLarge(gs) {
        var k :| 0 <= k < |gs| && |gs[k]| >= 2;
        if k < |init| { assert |init[k]| >= 2; }
      }
      if SomeLarge(init) {
        var k :| 0 <= k < |init| && |init[k]| >= 2;
        assert |gs[k]| >= 2;
      }
    }
  }

  lemma {:induction false} SlicesCount(g: Group, size: nat)
    requires size >= 2
    ensures 2 * |Slices(g, size)| <= |g| + 1
    decreases |g|
  {
    if |g| > size { SlicesCount(g[size..], size); }
  }

  lemma MulAtLeastTwo(a: nat, b: nat)
    requires b >= 2
    ensures 2 * a <= a * b
  {
  }

  lemma FanoutSmall(size: nat, bucketSize: nat)
    requires size > bucketSize >= 2
    ensures 2 <= Fanout(size, bucketSize) < size
  {
    var q := CeilDiv(size, bucketSize);
    assert q * bucketSize - bucketSize == (q - 1) * bucketSize;
    assert q > 0;
    MulAtLeastTwo(q - 1, bucketSize);
  }

  /** Splitting loses nothing, makes at least two pieces and fewer pieces than members,
      even when every member gets the same label. */
  lemma SplitFacts(g: Group, bucketSize: nat, lab: Labelling)
    requires |g| > bucketSize >= 2 && Increasing(g) && InRange(lab)
    ensures var split := SplitGroup(g, bucketSize, lab);
            Elements(split) == multiset(g) && Proper(split) && 2 <= |split| < |g|
  {
    var fanout := Fanout(|g|, bucketSize);
    FanoutSmall(|g|, bucketSize);
    var one: nat -> nat := (k: nat) => lab(g, fanout, k);
    ClassesElements(g, one, fanout);
    PickAll(g, one, fanout);
    SlicesElements(g, bucketSize);
    SlicesCount(g, bucketSize);
  }

  // ---------- what the pieces are

  /** The fanout: as many pieces as buckets are needed, but at least 2 and at most 32. */
  lemma FanoutIs(size: nat, bucketSize: nat)
    requires size > bucketSize >= 2
    ensures var f := Fanout(size, bucketSize);
            && 2 <= f <= 32 && f < size
            && (size <= f * bucketSize || f == 32) && ((f - 1) * bucketSize < size || f == 2)
  {
    FanoutSmall(size, bucketSize);
    var q := CeilDiv(size, bucketSize);
    hide CeilDiv;
    assert (q - 1) * bucketSize == q * bucketSize - bucketSize;
    MulOrder(q, 1, bucketSize);
  }

  /** A member is picked exactly if it stands at a position with that label. */
  lemma {:induction false} PickMember(g: Group, lab: nat -> nat, c: nat, x: nat)
    ensures x in Pick(g, lab, c) <==> exists k: nat :: k < |g| && g[k] == x && lab(k) == c
  {
    if g == [] {
    } else {
      var init, last := g[..|g| - 1], |g| - 1;
      PickMember(init, lab, c, x);
      if k: nat :| k < |g| && g[k] == x && lab(k) == c {
        if k < last { assert init[k] == x; }
      }
      if x in Pick(init, lab, c) {
        var k: nat :| k < |init| && init[k] == x && lab(k) == c;
        assert g[k] == x;
      }
    }
  }

  lemma {:induction false} ClassMember(g: Group, lab: nat -> nat, c: nat, p: Group)
    ensures p in Classes(g, lab, c) <==> exists d: nat :: d < c && p != [] && p == Pick(g, lab, d)
    decreases c
  {
    hide Pick;
    if c == 0 {
    } else {
      ClassMember(g, lab, c - 1, p);
      var last := Pick(g, lab, c - 1);
      assert p in Classes(g, lab, c) <==> p in Classes(g, lab, c - 1) || (p != [] && p == last);
      if d: nat :| d < c && p != [] && p == Pick(g, lab, d) {
        assert d < c - 1 || p == last;
      }
      if p in Classes(g, lab, c) && p !in Classes(g, lab, c - 1) {
        assert p == Pick(g, lab, c - 1);
      }
    }
  }

  /** If all labels are alike there is one class. */
  lemma {:induction false} OneClass(g: Group, lab: nat -> nat, c: nat, only: nat)
    requires forall k: nat :: k < |g| ==> lab(k) == only
    ensures |Classes(g, lab, c)| <= if only < c then 1 else 0
    decreases c
  {
    hide Pick;
    if c == 0 {
    } else {
      OneClass(g, lab, c - 1, only);
      if c - 1 != only && Pick(g, lab, c - 1) != [] {
        PickMember(g, lab, c - 1, Pick(g, lab, c - 1)[0]);
      }
    }
  }

  /** Two members with different labels are in two classes. */
  lemma TwoClasses(g: Group, lab: nat -> nat, c: nat, j: nat, k: nat)
    requires Increasing(g) && j < |g| && k < |g| && lab(j) != lab(k) && lab(j) < c && lab(k) < c
    ensures |Classes(g, lab, c)| >= 2
  {
    hide Pick, Classes;
    var p, q := Pick(g, lab, lab(j)), Pick(g, lab, lab(k));
    PickMember(g, lab, lab(j), g[j]);
    PickMember(g, lab, lab(k), g[k]);
    PickMember(g, lab, lab(k), g[j]);
    assert g[j] in p && g[k] in q && g[j] !in q;
    ClassMember(g, lab, c, p);
    ClassMember(g, lab, c, q);
    var cs := Classes(g, lab, c);
    var a :| 0 <= a < |cs| && cs[a] == p;
    var b :| 0 <= b < |cs| && cs[b] == q;
    assert a != b;
  }

  lemma CeilDivRest(n: nat, size: nat)
    requires n > size > 0
    ensures CeilDiv(n, size) == CeilDiv(n - size, size) + 1
  {
    var q := CeilDiv(n - size, size);
    assert (q + 1) * size == q * size + size;
    CeilDivIs(n, size, q + 1);
  }

  lemma {:induction false} SlicesCountIs(g: Group, size: nat)
    requires size > 0
    ensures |Slices(g, size)| == CeilDiv(|g|, size)
    decreases |g|
  {
    hide CeilDiv;
    if |g| <= size {
      CeilDivIs(|g|, size, if g == [] then 0 else 1);
    } else {
      CeilDivRest(|g|, size);
      SlicesCountIs(g[size..], size);
    }
  }

  /** Slice `i` holds positions `i * size` up to the next multiple. */
  lemma {:induction false} SlicesAt(g: Group, size: nat, i: nat)
    requires size > 0 && i < |Slices(g, size)|
    ensures i * size <= |g| && Slices(g, size)[i] == g[i * size..Min((i + 1) * size, |g|)]
    decreases |g|
  {
    var lo, hi := i * size, (i + 1) * size;
    assert hi == lo + size;
    if |g| <= size {
      assert i == 0;
    } else if i > 0 {
      SlicesAt(g[size..], size, i - 1);
      assert (i - 1) * size == lo - size;
    }
  }

  /** All members of the group get the same label. */
  ghost predicate OneLabel(g: Group, fanout: nat, lab: Labelling) {
    forall j: nat, k: nat :: j < |g| && k < |g| ==> lab(g, fanout, j) == lab(g, fanout, k)
  }

  /** Piece `i` holds positions `i * size` up to the next multiple. */
  ghost predicate CutEvenly(split: seq<Group>, g: Group, size: nat)
    requires size > 0
  {
    |split| == CeilDiv(|g|, size)
    && forall i: nat :: i < |split| ==> i * size <= |g| && split[i] == g[i * size..Min((i + 1) * size, |g|)]
  }

  /** Members are in one piece exactly if they have one label; only if all labels are alike the
      group is cut into slices instead. */
  lemma SplitByLabel(g: Group, bucketSize: nat, lab: Labelling)
    requires |g| > bucketSize >= 2 && Increasing(g) && InRange(lab)
    ensures var f, split := Fanout(|g|, bucketSize), SplitGroup(g, bucketSize, lab);
            !OneLabel(g, f, lab) ==>
              forall p: Group, j: nat, k: nat :: p in split && j < |g| && k < |g| && g[j] in p ==>
                (g[k] in p <==> lab(g, f, j) == lab(g, f, k))
    ensures var f, split := Fanout(|g|, bucketSize), SplitGroup(g, bucketSize, lab);
            OneLabel(g, f, lab) ==> CutEvenly(split, g, bucketSize)
  {
    hide Slices, Classes, Pick, Fanout, CeilDiv;
    var f, split := Fanout(|g|, bucketSize), SplitGroup(g, bucketSize, lab);
    FanoutSmall(|g|, bucketSize);
    var one: nat -> nat := (k: nat) => lab(g, f, k);
    if OneLabel(g, f, lab) {
      OneClass(g, one, f, one(0));
      SlicesCountIs(g, bucketSize);
      forall i: nat | i < |split|
        ensures i * bucketSize <= |g| && split[i] == g[i * bucketSize..Min((i + 1) * bucketSize, |g|)] {
        SlicesAt(g, bucketSize, i);
      }
    } else {
      var a: nat, b: nat :| a < |g| && b < |g| && lab(g, f, a) != lab(g, f, b);
      TwoClasses(g, one, f, a, b);
      forall p: Group, j: nat, k: nat | p in split && j < |g| && k < |g| && g[j] in p
        ensures g[k] in p <==> lab(g, f, j) == lab(g, f, k) {
        PieceOf(g, one, f, p, j, k);
      }
    }
  }

  /** Two members share a label class exactly if they share a label. */
  lemma PieceOf(g: Group, lab: nat -> nat, c: nat, p: Group, j: nat, k: nat)
    requires Increasing(g) && p in Classes(g, lab, c) && j < |g| && k < |g| && g[j] in p
    ensures g[k] in p <==> lab(j) == lab(k)
  {
    hide Pick, Classes;
    ClassMember(g, lab, c, p);
    var d: nat :| d < c && p == Pick(g, lab, d);
    PickMember(g, lab, d, g[j]);
    PickMember(g, lab, d, g[k]);
  }

  // ---------- sorting by (size, first member)

  predicate Before(a: Group, b: Group) {
    |a| < |b| || (|a| == |b| && (a == [] || a[0] <= b[0]))
  }

  function Insert(g: Group, sorted: seq<Group>): seq<Group> {
    if sorted == [] || Before(g, sorted[0]) then [g] + sorted else [sorted[0]] + Insert(g, sorted[1..])
  }

  /** The stable sort of the standard library, as a function. */
  function SortBuckets(gs: seq<Group>): seq<Group> {
    if gs == [] then [] else Insert(gs[0], SortBuckets(gs[1..]))
  }

  ghost predicate Sorted(gs: seq<Group>) {
    forall i, j :: 0 <= i < j < |gs| ==> Before(gs[i], gs[j])
  }

  lemma {:induction false} InsertMembers(g: Group, sorted: seq<Group>)
    ensures multiset(Insert(g, sorted)) == multiset{g} + multiset(sorted)
    decreases |sorted|
  {
    if sorted != [] && !Before(g, sorted[0]) {
      InsertMembers(g, sorted[1..]);
      assert sorted == [sorted[0]] + sorted[1..];
    }
  }

  lemma {:induction false} InsertKeeps(g: Group, sorted: seq<Group>)
    requires Sorted(sorted)
    ensures Sorted(Insert(g, sorted))
    decreases |sorted|
  {
    hide Before;
    if sorted != [] && !Before(g, sorted[0]) {
      InsertKeeps(g, sorted[1..]);
      InsertMembers(g, sorted[1..]);
      var rest := Insert(g, sorted[1..]);
      BeforeTotal(g, sorted[0]);
      forall j | 0 <= j < |rest| ensures Before(sorted[0], rest[j]) {
        assert rest[j] in multiset(rest);
        if rest[j] != g {
          var m :| 0 <= m < |sorted[1..]| && sorted[1..][m] == rest[j];
          assert sorted[m + 1] == rest[j];
        }
      }
    } else if sorted != [] {
      forall j | 0 <= j < |sorted| ensures Before(g, sorted[j]) {
        BeforeTrans(g, sorted[0], sorted[j]);
      }
    }
  }

  lemma BeforeTotal(a: Group, b: Group)
    ensures Before(a, b) || Before(b, a)
    ensures Before(a, a)
  {
  }

  lemma BeforeTrans(a: Group, b: Group, c: Group)
    requires Before(a, b) && (b == c || Before(b, c))
    ensures Before(a, c)
  {
  }

  lemma {:induction false} SortKeeps(gs: seq<Group>)
    ensures Sorted(SortBuckets(gs)) && multiset(SortBuckets(gs)) == multiset(gs)
    decreases |gs|
  {
    if gs == [] {
    } else {
      SortKeeps(gs[1..]);
      InsertKeeps(gs[0], SortBuckets(gs[1..]));
      InsertMembers(gs[0], SortBuckets(gs[1..]));
      assert gs == [gs[0]] + gs[1..];
    }
  }

  lemma {:induction false} ElementsRemove(gs: seq<Group>, k: nat)
    requires k < |gs|
    ensures Elements(gs) == Elements(gs[..k] + gs[k + 1..]) + multiset(gs[k])
  {
    assert gs == (gs[..k] + [gs[k]]) + gs[k + 1..];
    ElementsConcat(gs[..k] + [gs[k]], gs[k + 1..]);
    ElementsConcat(gs[..k], [gs[k]]);
    ElementsConcat(gs[..k], gs[k + 1..]);
    ElementsOne(gs[k]);
  }

  /** The members of a list of groups do not depend on the order of the groups. */
  lemma {:induction false} ElementsPermuted(a: seq<Group>, b: seq<Group>)
    requires multiset(a) == multiset(b)
    ensures Elements(a) == Elements(b) && |a| == |b|
    decreases |a|
  {
    if a == [] {
      assert |multiset(b)| == 0;
    } else {
      var last := a[|a| - 1];
      assert last in multiset(b);
      var k :| 0 <= k < |b| && b[k] == last;
      var rest := b[..k] + b[k + 1..];
      assert b == b[..k] + [last] + b[k + 1..];
      assert a == a[..|a| - 1] + [last];
      assert multiset(b) == multiset(b[..k]) + multiset{last} + multiset(b[k + 1..]);
      assert multiset(a) == multiset(a[..|a| - 1]) + multiset{last};
      assert multiset(rest) == multiset(b[..k]) + multiset(b[k + 1..]);
      assert multiset(a[..|a| - 1]) == multiset(a) - multiset{last} == multiset(rest);
      ElementsPermuted(a[..|a| - 1], rest);
      ElementsRemove(b, k);
    }
  }

  // ---------- the worklist

  /** The positions `0..n`. */
  function Indices(n: nat): (s: Group)
    ensures |s| == n && forall i :: 0 <= i < n ==> s[i] == i
  {
    seq(n, i => i)
  }

  ghost predicate Bounded(gs: seq<Group>, size: nat) {
    forall k :: 0 <= k < |gs| ==> |gs[k]| <= size
  }

  /** The groups of bounded size that a group falls into, however the pieces are taken up: a large
      group falls into what its pieces fall into. */
  ghost function Fragments(g: Group, bucketSize: nat, lab: Labelling): seq<Group>
    requires bucketSize >= 2 && InRange(lab) && g != [] && Increasing(g)
    decreases 2 * |g| - 1, 1
  {
    if |g| <= bucketSize then [g]
    else
      SplitFacts(g, bucketSize, lab);
      FragmentsOf(SplitGroup(g, bucketSize, lab), bucketSize, lab)
  }

  ghost function FragmentsOf(gs: seq<Group>, bucketSize: nat, lab: Labelling): seq<Group>
    requires bucketSize >= 2 && InRange(lab) && Proper(gs)
    decreases 2 * |Elements(gs)| - |gs|, 2
  {
    if gs == [] then []
    else
      var group, rest := gs[|gs| - 1], gs[..|gs| - 1];
      PopFacts(gs, rest, group);
      FragmentsOf(rest, bucketSize, lab) + Fragments(group, bucketSize, lab)
  }

  lemma {:induction false} FragmentsConcat(a: seq<Group>, b: seq<Group>, bucketSize: nat, lab: Labelling)
    requires bucketSize >= 2 && InRange(lab) && Proper(a) && Proper(b)
    ensures Proper(a + b)
    ensures FragmentsOf(a + b, bucketSize, lab) == FragmentsOf(a, bucketSize, lab) + FragmentsOf(b, bucketSize, lab)
    decreases |b|
  {
    hide Increasing, Fragments, Elements;
    if b == [] {
      assert a + b == a;
    } else {
      FragmentsConcat(a, b[..|b| - 1], bucketSize, lab);
      assert (a + b)[..|a + b| - 1] == a + b[..|b| - 1];
    }
  }

  /** The fragments of a group hold its members, each once, in bounded groups. */
  lemma {:induction false} FragmentFacts(g: Group, bucketSize: nat, lab: Labelling)
    requires bucketSize >= 2 && InRange(lab) && g != [] && Increasing(g)
    ensures var fs := Fragments(g, bucketSize, lab);
            Elements(fs) == multiset(g) && Proper(fs) && Bounded(fs, bucketSize)
    decreases 2 * |g| - 1, 1
  {
    hide Elements, Increasing, SplitGroup;
    if |g| <= bucketSize {
      ElementsOne(g);
    } else {
      SplitFacts(g, bucketSize, lab);
      FragmentFactsOf(SplitGroup(g, bucketSize, lab), bucketSize, lab);
    }
  }

  lemma {:induction false} FragmentFactsOf(gs: seq<Group>, bucketSize: nat, lab: Labelling)
    requires bucketSize >= 2 && InRange(lab) && Proper(gs)
    ensures var fs := FragmentsOf(gs, bucketSize, lab);
            Elements(fs) == Elements(gs) && Proper(fs) && Bounded(fs, bucketSize)
    decreases 2 * |Elements(gs)| - |gs|, 2
  {
    hide Elements, Increasing, Fragments;
    if gs == [] {
    } else {
      var group, rest := gs[|gs| - 1], gs[..|gs| - 1];
      PopFacts(gs, rest, group);
      FragmentFactsOf(rest, bucketSize, lab);
      FragmentFacts(group, bucketSize, lab);
      ElementsConcat(FragmentsOf(rest, bucketSize, lab), Fragments(group, bucketSize, lab));
    }
  }

  lemma FragmentsStep(groups: seq<Group>, rest: seq<Group>, group: Group, bucketSize: nat, lab: Labelling)
    requires bucketSize >= 2 && InRange(lab) && Proper(groups) && groups == rest + [group]
    ensures Proper(rest) && Increasing(group)
    ensures |group| <= bucketSize ==>
              FragmentsOf(groups, bucketSize, lab) == FragmentsOf(rest, bucketSize, lab) + [group]
    ensures |group| > bucketSize ==> Proper(rest + SplitGroup(group, bucketSize, lab))
    ensures |group| > bucketSize ==>
              FragmentsOf(groups, bucketSize, lab)
              == FragmentsOf(rest + SplitGroup(group, bucketSize, lab), bucketSize, lab)
  {
    hide Elements, Increasing, SplitGroup;
    assert groups[..|groups| - 1] == rest;
    PopFacts(groups, rest, group);
    if |group| > bucketSize {
      SplitFacts(group, bucketSize, lab);
      FragmentsConcat(rest, SplitGroup(group, bucketSize, lab), bucketSize, lab);
    }
  }

  /** What `n` nodes are cut into: the fragments of all indices, ordered by size and first
      member. */
  ghost predicate Buckets(buckets: seq<Group>, n: nat, bucketSize: nat, lab: Labelling)
    requires bucketSize >= 2 && n > 0 && InRange(lab)
  {
    multiset(buckets) == multiset(Fragments(Indices(n), bucketSize, lab)) && Sorted(buckets)
  }

  /** No two groups share a member. */
  ghost predicate Apart(gs: seq<Group>) {
    forall j, k :: 0 <= j < |gs| && 0 <= k < |gs| && j != k && gs[j] != [] ==> gs[j][0] !in gs[k]
  }

  lemma TailKept(gs: seq<Group>)
    requires gs != [] && Sorted(gs)
    ensures Sorted(gs[1..]) && (Apart(gs) ==> Apart(gs[1..]))
  {
    hide Before;
    var rest := gs[1..];
    forall i, j | 0 <= i < j < |rest| ensures Before(rest[i], rest[j]) { assert Before(gs[i + 1], gs[j + 1]); }
    if Apart(gs) {
      forall j, k | 0 <= j < |rest| && 0 <= k < |rest| && j != k && rest[j] != [] ensures rest[j][0] !in rest[k] {
        assert gs[j + 1][0] !in gs[k + 1];
      }
    }
  }

  lemma TailMultiset(gs: seq<Group>)
    requires gs != []
    ensures multiset(gs[1..]) == multiset(gs) - multiset{gs[0]} && gs == [gs[0]] + gs[1..]
  {
    assert gs == [gs[0]] + gs[1..];
  }

  lemma HeadsAgree(a: seq<Group>, b: seq<Group>)
    requires multiset(a) == multiset(b) && Sorted(a) && Sorted(b) && Apart(a) && a != []
    requires forall k :: 0 <= k < |a| ==> a[k] != []
    ensures b != [] && a[0] == b[0]
  {
    assert |multiset(a)| == |multiset(b)|;
    assert a[0] in multiset(b) && b[0] in multiset(a);
    var j :| 0 <= j < |a| && a[j] == b[0];
    var k :| 0 <= k < |b| && b[k] == a[0];
    BeforeTotal(a[0], a[0]);
    assert Before(a[0], a[j]) && Before(b[0], b[k]);
    assert a[j][0] == a[0][0];
    assert a[j][0] in a[0];
  }

  /** Size and first member decide the order, so groups without common members can be sorted in
      one way only. */
  lemma {:induction false} SortedOnce(a: seq<Group>, b: seq<Group>)
    requires multiset(a) == multiset(b) && Sorted(a) && Sorted(b) && Apart(a)
    requires forall k :: 0 <= k < |a| ==> a[k] != []
    ensures a == b
    decreases |a|
  {
    if a == [] {
      assert |multiset(b)| == 0;
    } else {
      hide Sorted, Apart;
      HeadsAgree(a, b);
      TailMultiset(a);
      TailMultiset(b);
      TailKept(a);
      TailKept(b);
      SortedOnce(a[1..], b[1..]);
    }
  }

  lemma CountPair(gs: seq<Group>, j: nat, k: nat, x: nat)
    requires j < k < |gs|
    ensures Elements(gs)[x] >= multiset(gs[j])[x] + multiset(gs[k])[x]
  {
    hide Elements;
    ElementsRemove(gs, k);
    var rest := gs[..k] + gs[k + 1..];
    assert rest[j] == gs[j];
    ElementsRemove(rest, j);
  }

  lemma ElementsApart(gs: seq<Group>)
    requires Proper(gs) && forall x :: Elements(gs)[x] <= 1
    ensures Apart(gs)
  {
    hide Elements;
    forall j, k | 0 <= j < |gs| && 0 <= k < |gs| && j != k ensures gs[j][0] !in gs[k] {
      var x := gs[j][0];
      assert x in multiset(gs[j]);
      CountPair(gs, if j < k then j else k, if j < k then k else j, x);
      assert multiset(gs[k])[x] == 0;
    }
  }

  /** Of `n` nodes there is only one list of buckets. */
  lemma BucketsOnce(a: seq<Group>, b: seq<Group>, n: nat, bucketSize: nat, lab: Labelling)
    requires bucketSize >= 2 && n > 0 && InRange(lab)
    requires Buckets(a, n, bucketSize, lab) && Buckets(b, n, bucketSize, lab)
    ensures a == b
  {
    hide Elements, Fragments;
    BucketFacts(a, n, bucketSize, lab);
    SortedOnce(a, b);
  }

  /** They come by size, the smallest first, and by first member among those of one size. */
  lemma BucketOrder(buckets: seq<Group>, n: nat, bucketSize: nat, lab: Labelling, i: nat, j: nat)
    requires bucketSize >= 2 && n > 0 && InRange(lab) && Buckets(buckets, n, bucketSize, lab)
    requires i < j < |buckets|
    ensures 0 < |buckets[i]| <= |buckets[j]| <= bucketSize
    ensures |buckets[i]| == |buckets[j]| ==> buckets[i][0] < buckets[j][0]
  {
    hide Elements, Fragments;
    BucketFacts(buckets, n, bucketSize, lab);
    assert Before(buckets[i], buckets[j]);
    assert buckets[j][0] in buckets[j] && buckets[i][0] !in buckets[j];
  }

  lemma BucketFacts(buckets: seq<Group>, n: nat, bucketSize: nat, lab: Labelling)
    requires bucketSize >= 2 && n > 0 && InRange(lab) && Buckets(buckets, n, bucketSize, lab)
    ensures Proper(buckets) && Bounded(buckets, bucketSize) && Apart(buckets)
  {
    hide Elements, Fragments;
    var fs := Fragments(Indices(n), bucketSize, lab);
    FragmentFacts(Indices(n), bucketSize, lab);
    ElementsPermuted(buckets, fs);
    forall k | 0 <= k < |buckets| ensures buckets[k] in fs { assert buckets[k] in multiset(buckets); }
    CountUpTo(n);
    forall x ensures Elements(buckets)[x] <= 1 { assert x in Indices(n) ==> x < n; }
    ElementsApart(buckets);
  }

  /** Every index below `n` is listed once. */
  lemma CountUpTo(n: nat)
    ensures forall x: nat :: x < n ==> multiset(Indices(n))[x] == 1
    ensures forall x: nat :: x !in Indices(n) ==> multiset(Indices(n))[x] == 0
  {
    var all := Indices(n);
    forall x: nat | x < n ensures multiset(all)[x] == 1 {
      var a, b := all[..x], all[x + 1..];
      assert all == a + [x] + b;
      assert x !in a && x !in b;
    }
  }

  /** The buckets hold every index below `n` exactly once, in increasing order inside each
      non-empty bucket of bounded size; and when a split was needed at all there are fewer
      buckets than indices. */
  method SplitPsiBuckets(n: nat, bucketSize: nat, lab: Labelling) returns (buckets: seq<Group>)
    requires bucketSize >= 2 && n > 0 && InRange(lab)
    ensures Buckets(buckets, n, bucketSize, lab)
    ensures Elements(buckets) == multiset(Indices(n))
    ensures Proper(buckets) && Bounded(buckets, bucketSize) && Sorted(buckets)
    ensures buckets != [] && (n > bucketSize ==> |buckets| < n)
  {
    hide Elements, Increasing, SplitGroup, Fragments, FragmentsOf;
    var all: Group := Indices(n);
    WholeGroup(n, all);
    OneFragment(all, bucketSize, lab);
    if n <= bucketSize {
      return [all];
    }
    var groups: seq<Group> := [all];
    buckets := [];
    while groups != []
      invariant Proper(groups) && Proper(buckets) && Bounded(buckets, bucketSize)
      invariant Elements(groups) + Elements(buckets) == multiset(all)
      invariant SomeLarge(groups) || SomeLarge(buckets)
      invariant multiset(FragmentsOf(groups, bucketSize, lab)) + multiset(buckets)
                == multiset(Fragments(all, bucketSize, lab))
      decreases 2 * |Elements(groups)| - |groups|
    {
      var last := |groups| - 1;
      var group := groups[last];
      ghost var before := groups;
      groups := groups[..last];
      PopFacts(before, groups, group);
      FragmentsStep(before, groups, group, bucketSize, lab);
      if |group| <= bucketSize {
        PushFacts(buckets, [group]);
        ElementsOne(group);
        buckets := buckets + [group];
      } else {
        var split := SplitGroup(group, bucketSize, lab);
        SplitFacts(group, bucketSize, lab);
        SizeBounds(split);
        PushFacts(groups, split);
        groups := groups + split;
      }
    }
    NoneLeft(bucketSize, lab);
    NoElements();
    SizeBounds(buckets);
    SortedBuckets(buckets, bucketSize);
    buckets := SortBuckets(buckets);
  }

  lemma NoneLeft(bucketSize: nat, lab: Labelling)
    requires bucketSize >= 2 && InRange(lab)
    ensures FragmentsOf([], bucketSize, lab) == []
  {
  }

  lemma OneFragment(g: Group, bucketSize: nat, lab: Labelling)
    requires bucketSize >= 2 && InRange(lab) && g != [] && Increasing(g)
    ensures FragmentsOf([g], bucketSize, lab) == Fragments(g, bucketSize, lab)
    ensures |g| <= bucketSize ==> Fragments(g, bucketSize, lab) == [g]
  {
    assert [g][..0] == [];
  }

  /** Sorting keeps what the buckets are. */
  lemma SortedBuckets(buckets: seq<Group>, bucketSize: nat)
    requires Proper(buckets) && Bounded(buckets, bucketSize)
    ensures Proper(SortBuckets(buckets)) && Bounded(SortBuckets(buckets), bucketSize) && Sorted(SortBuckets(buckets))
    ensures Elements(SortBuckets(buckets)) == Elements(buckets) && |SortBuckets(buckets)| == |buckets|
    ensures multiset(SortBuckets(buckets)) == multiset(buckets)
  {
    hide Elements, Increasing;
    SortKeeps(buckets);
    ElementsPermuted(SortBuckets(buckets), buckets);
    assert |multiset(SortBuckets(buckets))| == |multiset(buckets)|;
    forall k | 0 <= k < |SortBuckets(buckets)| ensures SortBuckets(buckets)[k] in buckets {
      assert SortBuckets(buckets)[k] in multiset(SortBuckets(buckets));
    }
  }

  lemma WholeGroup(n: nat, all: Group)
    requires n > 0 && |all| == n && forall i :: 0 <= i < n ==> all[i] == i
    ensures Proper([all]) && Elements([all]) == multiset(all) && Elements([]) == multiset{}
    ensures SomeLarge([all]) <==> n >= 2
  {
    ElementsOne(all);
    if n >= 2 { assert |[all][0]| >= 2; }
  }

  lemma PopFacts(gs: seq<Group>, rest: seq<Group>, g: Group)
    requires gs == rest + [g] && Proper(gs)
    ensures Elements(gs) == Elements(rest) + multiset(g) && Proper(rest) && g != [] && Increasing(g)
    ensures |Elements(rest)| >= |rest|
    ensures SomeLarge(gs) ==> SomeLarge(rest) || |g| >= 2
  {
    ElementsConcat(rest, [g]);
    ElementsOne(g);
    assert Proper(rest) by { assert forall k :: 0 <= k < |rest| ==> rest[k] == gs[k]; }
    assert gs[|rest|] == g;
    SizeBounds(rest);
  }

  lemma PushFacts(gs: seq<Group>, more: seq<Group>)
    ensures Elements(gs + more) == Elements(gs) + Elements(more)
    ensures SomeLarge(gs + more) <==> SomeLarge(gs) || SomeLarge(more)
  {
    ElementsConcat(gs, more);
    var all := gs + more;
    if SomeLarge(gs) { var k :| 0 <= k < |gs| && |gs[k]| >= 2; assert |all[k]| >= 2; }
    if SomeLarge(more) { var k :| 0 <= k < |more| && |more[k]| >= 2; assert |all[|gs| + k]| >= 2; }
  }
}
