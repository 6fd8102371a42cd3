/** What the replacements in an edge id come to, exactly: one pass over the text. */
module DslEdges {
  import opened DslIds

  // ---------- ids that replacements cannot confuse

  /** One of the two texts starts with the other. */
  predicate Meets(a: string, b: string) {
    a <= b || b <= a
  }

  ghost predicate SolidAt(k: string, j: nat)
    requires j <= |k|
  {
    forall p :: IsPrefix(p) ==> !Meets(k[j..], p.legacy) && !Meets(k[j..], p.current)
  }

  /** No prefix, legacy or current, starts inside the id, not even one that its end cuts off. */
  ghost predicate Solid(k: string) {
    forall j: nat :: 0 < j < |k| ==> SolidAt(k, j)
  }

  ghost predicate AllSolid(ks: seq<string>) {
    forall k :: k in ks && Marked(k) ==> Solid(k)
  }

  /** Whether a solid id stands at the start of a text does not depend on what follows later: a
      prefix behind it is not part of it. */
  lemma SolidBefore(x: string, p: Prefix, w: string, k: string)
    requires IsPrefix(p) && Solid(k) && x != ""
    ensures k <= x + (p.legacy + w) <==> k <= x
    ensures k <= x + (p.current + w) <==> k <= x
  {
    hide IsPrefix;
    var n := |x|;
    if n < |k| {
      assert SolidAt(k, n);
      BehindMeets(x, p.legacy, w, k);
      BehindMeets(x, p.current, w, k);
    }
  }

  lemma BehindMeets(x: string, y: string, w: string, k: string)
    requires |x| < |k|
    ensures k <= x + (y + w) ==> Meets(k[|x|..], y)
  {
    if k <= x + (y + w) {
      var tail := k[|x|..];
      assert forall i :: 0 <= i < |tail| ==> tail[i] == (x + (y + w))[|x| + i];
      assert forall i :: 0 <= i < |tail| && i < |y| ==> tail[i] == y[i];
    }
  }

  // ---------- one pass

  /** An id that is to be renamed stands at the start of the text. */
  ghost predicate Starts(s: string, ks: seq<string>) {
    exists k :: k in ks && Marked(k) && k <= s
  }

  lemma StartsMarked(s: string, ks: seq<string>)
    requires Starts(s, ks)
    ensures Marked(s) && s != "" && 0 < |MarkOf(s).legacy| <= |s|
  {
    hide Marked, MarkOf;
    var k :| k in ks && Marked(k) && k <= s;
    MarkSame(k, s);
    MarkParts(s);
  }

  /** Left to right: where an id of `ks` starts, its legacy prefix is exchanged. */
  ghost function Pass(s: string, ks: seq<string>): string
    decreases |s|
  {
    if s == "" then "" else
    if Starts(s, ks) then
      StartsMarked(s, ks);
      MarkOf(s).current + Pass(s[|MarkOf(s).legacy|..], ks)
    else [s[0]] + Pass(s[1..], ks)
  }

  lemma PassStart(s: string, ks: seq<string>)
    requires Starts(s, ks)
    ensures Marked(s) && |MarkOf(s).legacy| <= |s|
    ensures Pass(s, ks) == MarkOf(s).current + Pass(s[|MarkOf(s).legacy|..], ks)
  {
    hide Starts, Marked, MarkOf;
    StartsMarked(s, ks);
  }

  lemma PassChar(s: string, ks: seq<string>)
    requires s != "" && !Starts(s, ks)
    ensures Pass(s, ks) == [s[0]] + Pass(s[1..], ks)
  {
    hide Starts, Marked, MarkOf;
  }

  lemma {:induction false} PassSkip(a: string, w: string, ks: seq<string>)
    requires forall i :: 0 <= i < |a| ==> !Starts(a[i..] + w, ks)
    ensures Pass(a + w, ks) == a + Pass(w, ks)
    decreases |a|
  {
    hide Starts, Pass;
    if a == "" {
      assert a + w == w;
    } else {
      assert a[0..] == a;
      PassChar(a + w, ks);
      forall i | 0 <= i < |a[1..]| ensures !Starts(a[1..][i..] + w, ks) { assert a[1..][i..] == a[i + 1..]; }
      PassSkip(a[1..], w, ks);
      assert (a + w)[1..] == a[1..] + w && a == [a[0]] + a[1..];
    }
  }

  /** No id starts inside a current prefix. */
  lemma CurrentStartless(p: Prefix, w: string, ks: seq<string>)
    requires IsPrefix(p)
    ensures forall i :: 0 <= i < |p.current| ==> !Starts(p.current[i..] + w, ks)
  {
    hide IsPrefix, Marked, Starts;
    forall i | 0 <= i < |p.current| ensures !Starts(p.current[i..] + w, ks) {
      CurrentUnmarked(p, i, w);
      Unstarted(p.current[i..] + w, ks);
    }
  }

  lemma Unstarted(s: string, ks: seq<string>)
    requires !Marked(s)
    ensures !Starts(s, ks)
  {
    hide Marked;
    if Starts(s, ks) { StartsMarked(s, ks); }
  }

  lemma StartsBefore(x: string, p: Prefix, w: string, ks: seq<string>)
    requires IsPrefix(p) && AllSolid(ks) && x != ""
    ensures Starts(x + (p.legacy + w), ks) <==> Starts(x, ks)
    ensures Starts(x + (p.current + w), ks) <==> Starts(x, ks)
  {
    hide IsPrefix, Marked, Solid;
    forall k | k in ks && Marked(k)
      ensures (k <= x + (p.legacy + w) <==> k <= x) && (k <= x + (p.current + w) <==> k <= x)
    {
      SolidBefore(x, p, w, k);
    }
  }

  /** Exchanging the prefix of an id that stands in the text leaves the pass as it was. */
  lemma {:induction false} PassAt(x: string, p: Prefix, w: string, ks: seq<string>)
    requires IsPrefix(p) && AllSolid(ks) && Starts(p.legacy + w, ks)
    ensures Pass(x + (p.current + w), ks) == Pass(x + (p.legacy + w), ks)
    decreases |x|
  {
    hide IsPrefix, Marked, MarkOf, AllSolid, Starts, Pass;
    var a, b := x + (p.legacy + w), x + (p.current + w);
    if x == "" {
      PassStart(p.legacy + w, ks);
      MarkedBy(p, w);
      CurrentStartless(p, w, ks);
      PassSkip(p.current, w, ks);
      assert a == p.legacy + w && b == p.current + w;
    } else {
      StartsBefore(x, p, w, ks);
      PassAt(x[1..], p, w, ks);
      assert a[1..] == x[1..] + (p.legacy + w) && b[1..] == x[1..] + (p.current + w);
      if Starts(x, ks) {
        StartsMarked(x, ks);
        MarkSame(x, a);
        MarkSame(x, b);
        var m := |MarkOf(x).legacy|;
        PassStart(a, ks);
        PassStart(b, ks);
        PassAt(x[m..], p, w, ks);
        assert a[m..] == x[m..] + (p.legacy + w) && b[m..] == x[m..] + (p.current + w);
      } else {
        PassChar(a, ks);
        PassChar(b, ks);
        assert a[0] == b[0];
      }
    }
  }

  /** So every replacement leaves it as it was. */
  lemma {:induction false} ReplaceKeepsPass(x: string, s: string, k: string, ks: seq<string>)
    requires k in ks && Marked(k) && AllSolid(ks)
    ensures Pass(x + ReplaceAll(s, k, RenameId(k)), ks) == Pass(x + s, ks)
    decreases |s|
  {
    hide Marked, MarkOf, AllSolid, Starts, Pass, RenameId, IsPrefix, Occurs;
    var r := ReplaceAll(s, k, RenameId(k));
    NothingOccurs(k);
    if s == "" {
    } else if k <= s {
      MarkParts(k);
      var p := MarkOf(k);
      var rest, t := k[|p.legacy|..], s[|k|..];
      var t' := ReplaceAll(t, k, RenameId(k));
      ReplaceKeepsPass(x + k, t, k, ks);
      StartsItself(k, p.legacy + (rest + t'), ks);
      PassAt(x, p, rest + t', ks);
      assert s == k + t && r == RenameId(k) + t';
      assert x + r == x + (p.current + (rest + t'));
      assert (x + k) + t' == x + (p.legacy + (rest + t'));
      assert (x + k) + t == x + s;
    } else {
      var t, t' := s[1..], ReplaceAll(s[1..], k, RenameId(k));
      ReplaceKeepsPass(x + [s[0]], t, k, ks);
      assert r == [s[0]] + t' && s == [s[0]] + t;
      assert x + r == (x + [s[0]]) + t' && x + s == (x + [s[0]]) + t;
    }
  }

  lemma StartsItself(k: string, s: string, ks: seq<string>)
    requires k in ks && Marked(k) && k <= s
    ensures Starts(s, ks)
  {
  }

  // ---------- after its replacement an id is gone for good

  /** An exchanged prefix brings no id into a text. */
  lemma NoneArises(x: string, p: Prefix, w: string, c: string)
    requires IsPrefix(p) && Marked(c) && Solid(c) && !Occurs(c, x + (p.legacy + w))
    ensures !Occurs(c, x + (p.current + w))
  {
    hide IsPrefix, Marked, Solid;
    var a, b := x + (p.legacy + w), x + (p.current + w);
    forall i | 0 <= i <= |b| ensures !(c <= b[i..]) {
      if i < |x| {
        SolidBefore(x[i..], p, w, c);
        assert a[i..] == x[i..] + (p.legacy + w) && b[i..] == x[i..] + (p.current + w);
      } else if i < |x| + |p.current| {
        CurrentUnmarked(p, i - |x|, w);
        assert b[i..] == p.current[i - |x|..] + w;
        UnmarkedStart(c, b[i..]);
      } else {
        assert b[i..] == w[i - |x| - |p.current|..] == a[i - |p.current| + |p.legacy|..];
      }
    }
  }

  lemma {:induction false} StaysGone(x: string, s: string, k: string, c: string)
    requires Marked(k) && Marked(c) && Solid(c) && !Occurs(c, x + s)
    ensures !Occurs(c, x + ReplaceAll(s, k, RenameId(k)))
    decreases |s|
  {
    hide Marked, MarkOf, Solid, RenameId, IsPrefix, Occurs;
    var r := ReplaceAll(s, k, RenameId(k));
    NothingOccurs(k);
    if s == "" {
    } else if k <= s {
      MarkParts(k);
      var p := MarkOf(k);
      var rest, t := k[|p.legacy|..], s[|k|..];
      assert s == k + t && r == RenameId(k) + ReplaceAll(t, k, RenameId(k));
      assert x + s == x + (p.legacy + (rest + t));
      NoneArises(x, p, rest + t, c);
      assert x + (p.current + (rest + t)) == (x + RenameId(k)) + t;
      StaysGone(x + RenameId(k), t, k, c);
      assert x + r == (x + RenameId(k)) + ReplaceAll(t, k, RenameId(k));
    } else {
      var t, t' := s[1..], ReplaceAll(s[1..], k, RenameId(k));
      assert r == [s[0]] + t' && s == [s[0]] + t;
      assert x + r == (x + [s[0]]) + t' && x + s == (x + [s[0]]) + t;
      StaysGone(x + [s[0]], t, k, c);
    }
  }

  /** A solid id does not stand inside itself, whatever follows. */
  lemma NotInItself(k: string, t: string, j: nat)
    requires Marked(k) && Solid(k) && 0 < j < |k|
    ensures !(k <= (k + t)[j..])
  {
    hide IsPrefix, Marked, MarkOf;
    assert SolidAt(k, j);
    MarkParts(k);
    var p := MarkOf(k);
    var tail := (k + t)[j..];
    assert tail == k[j..] + t;
    FrontMeets(k[j..], t, p.legacy);
    assert p.legacy <= k;
  }

  lemma FrontMeets(a: string, t: string, y: string)
    ensures y <= a + t ==> Meets(a, y)
  {
    if y <= a + t {
      if |y| <= |a| {
        assert forall i :: 0 <= i < |y| ==> y[i] == (a + t)[i] == a[i];
      } else {
        assert forall i :: 0 <= i < |a| ==> y[i] == (a + t)[i] == a[i];
      }
    }
  }

  ghost predicate NotBefore(s: string, n: nat, k: string) {
    forall i: nat {:trigger s[i..]} :: i < n && i <= |s| ==> !(k <= s[i..])
  }

  lemma GoneBefore(x: string, k: string, t: string)
    requires Marked(k) && Solid(k) && NotBefore(x + (k + t), |x|, k)
    ensures NotBefore(x + (RenameId(k) + t), |x| + |RenameId(k)|, k)
  {
    hide IsPrefix, Marked, MarkOf, Solid, RenameId;
    MarkParts(k);
    var p := MarkOf(k);
    var rest := k[|p.legacy|..];
    var w := rest + t;
    var a, b := x + (k + t), x + (RenameId(k) + t);
    assert a == x + (p.legacy + w) && b == x + (p.current + w);
    forall i: nat | i < |x| + |RenameId(k)| ensures !(k <= b[i..]) {
      if i < |x| {
        SolidBefore(x[i..], p, w, k);
        assert a[i..] == x[i..] + (p.legacy + w) && b[i..] == x[i..] + (p.current + w);
      } else if i < |x| + |p.current| {
        CurrentUnmarked(p, i - |x|, w);
        assert b[i..] == p.current[i - |x|..] + w;
        UnmarkedStart(k, b[i..]);
      } else {
        var j := i - |x| - |p.current| + |p.legacy|;
        NotInItself(k, t, j);
        assert b[i..] == w[i - |x| - |p.current|..] == (k + t)[j..];
      }
    }
  }

  lemma {:induction false} Gone(x: string, s: string, k: string)
    requires Marked(k) && Solid(k) && NotBefore(x + s, |x|, k)
    ensures !Occurs(k, x + ReplaceAll(s, k, RenameId(k)))
    decreases |s|
  {
    hide Marked, MarkOf, Solid, RenameId, IsPrefix, Occurs, NotBefore;
    var r := ReplaceAll(s, k, RenameId(k));
    NothingOccurs(k);
    if s == "" {
      assert x + s == x && x + r == x;
      NowhereBefore(x, k);
    } else if k <= s {
      var t := s[|k|..];
      assert s == k + t && r == RenameId(k) + ReplaceAll(t, k, RenameId(k));
      GoneBefore(x, k, t);
      assert x + (RenameId(k) + t) == (x + RenameId(k)) + t;
      Gone(x + RenameId(k), t, k);
      assert x + r == (x + RenameId(k)) + ReplaceAll(t, k, RenameId(k));
    } else {
      var t, t' := s[1..], ReplaceAll(s[1..], k, RenameId(k));
      assert r == [s[0]] + t' && s == [s[0]] + t;
      assert x + r == (x + [s[0]]) + t' && x + s == (x + [s[0]]) + t;
      NotHere(x, s, k);
      Gone(x + [s[0]], t, k);
    }
  }

  lemma NowhereBefore(x: string, k: string)
    requires NotBefore(x, |x|, k) && k != ""
    ensures !Occurs(k, x)
  {
    assert x[|x|..] == "";
  }

  lemma NotHere(x: string, s: string, k: string)
    requires NotBefore(x + s, |x|, k) && !(k <= s)
    ensures NotBefore(x + s, |x| + 1, k)
  {
    assert (x + s)[|x|..] == s;
  }

  lemma {:induction false} AllGone(s: string, ks: seq<string>, n: nat, i: nat)
    requires AllSolid(ks) && i < n <= |ks| && Marked(ks[i])
    ensures !Occurs(ks[i], ReplaceIds(s, ks[..n]))
    decreases n
  {
    hide Marked, MarkOf, Solid, RenameId, Occurs, ReplaceIds, ReplaceAll, NotBefore;
    var before, k := ReplaceIds(s, ks[..n - 1]), ks[n - 1];
    ReplaceIdsSnoc(s, ks, n - 1);
    assert "" + before == before;
    assert ks[i] in ks && k in ks;
    if i == n - 1 {
      assert NotBefore("" + before, 0, k) by { NotBeforeStart(before, k); }
      Gone("", before, k);
      assert "" + ReplaceAll(before, k, RenameId(k)) == ReplaceAll(before, k, RenameId(k));
    } else {
      AllGone(s, ks, n - 1, i);
      if Marked(k) {
        StaysGone("", before, k, ks[i]);
        assert "" + ReplaceAll(before, k, RenameId(k)) == ReplaceAll(before, k, RenameId(k));
      } else {
        OnePass(before, k);
      }
    }
  }

  lemma NotBeforeStart(s: string, k: string)
    ensures NotBefore("" + s, 0, k)
  {
  }

  lemma {:induction false} PassKept(s: string, ks: seq<string>, n: nat)
    requires AllSolid(ks) && n <= |ks|
    ensures Pass(ReplaceIds(s, ks[..n]), ks) == Pass(s, ks)
    decreases n
  {
    hide Marked, MarkOf, AllSolid, Pass, RenameId, ReplaceIds, ReplaceAll, Occurs;
    if n == 0 {
      assert ks[..0] == [];
      NoIds(s);
    } else {
      var before, k := ReplaceIds(s, ks[..n - 1]), ks[n - 1];
      PassKept(s, ks, n - 1);
      ReplaceIdsSnoc(s, ks, n - 1);
      if Marked(k) {
        ReplaceKeepsPass("", before, k, ks);
        assert "" + before == before && "" + ReplaceAll(before, k, RenameId(k)) == ReplaceAll(before, k, RenameId(k));
      } else {
        OnePass(before, k);
      }
    }
  }

  lemma NoStarts(s: string, ks: seq<string>)
    requires forall k :: k in ks && Marked(k) ==> !Occurs(k, s)
    ensures Pass(s, ks) == s
  {
    hide Marked, Pass;
    forall i | 0 <= i < |s| ensures !Starts(s[i..] + "", ks) { assert s[i..] + "" == s[i..]; }
    hide Starts, Occurs;
    PassSkip(s, "", ks);
    NothingPassed(ks);
    assert s + "" == s;
  }

  lemma NothingPassed(ks: seq<string>)
    ensures Pass("", ks) == ""
  {
  }

  /** Replacing solid ids one after the other is one pass over the text, in whatever order the ids
      are taken. */
  lemma PassExact(s: string, ks: seq<string>)
    requires AllSolid(ks)
    ensures ReplaceIds(s, ks) == Pass(s, ks)
  {
    hide Marked, AllSolid, Pass, ReplaceIds, Occurs;
    var r := ReplaceIds(s, ks);
    assert ks[..|ks|] == ks;
    PassKept(s, ks, |ks|);
    forall k | k in ks && Marked(k) ensures !Occurs(k, r) {
      var i :| 0 <= i < |ks| && ks[i] == k;
      AllGone(s, ks, |ks|, i);
    }
    NoStarts(r, ks);
  }

  lemma {:induction false} PassSame(s: string, a: seq<string>, b: seq<string>)
    requires forall k :: k in a <==> k in b
    ensures Pass(s, a) == Pass(s, b)
    decreases |s|
  {
    hide Marked, MarkOf, Pass;
    if s == "" {
      NothingPassed(a);
      NothingPassed(b);
    } else if Starts(s, a) {
      assert Starts(s, b);
      StartsMarked(s, a);
      PassStart(s, a);
      PassStart(s, b);
      PassSame(s[|MarkOf(s).legacy|..], a, b);
    } else {
      assert !Starts(s, b);
      PassChar(s, a);
      PassChar(s, b);
      PassSame(s[1..], a, b);
    }
  }

  lemma EdgePass(s: string, ks: seq<string>)
    requires AllSolid(ks)
    ensures ReplaceIds(s, ByLength(ks)) == Pass(s, ks)
  {
    hide Marked, Solid, Pass, ReplaceIds, ByLength;
    var order := ByLength(ks);
    assert AllSolid(order);
    PassExact(s, order);
    PassSame(s, order, ks);
  }

  // ---------- edge ids put together from texts and component ids

  ghost predicate Given(ps: seq<Part>, ks: seq<string>) {
    forall i :: 0 <= i < |ps| && ps[i].Named? ==> ps[i].id in ks
  }

  /** Ids that are to be renamed start nowhere but where one was put. */
  ghost predicate Sparse(ps: seq<Part>, ks: seq<string>) {
    ps == [] ||
    (Sparse(ps[1..], ks) &&
     match ps[0]
     case Plain(t) => forall i :: 0 <= i < |t| ==> !Starts(t[i..] + Spelled(ps[1..]), ks)
     case Named(k) =>
       forall i :: 0 <= i < |k| && !(i == 0 && Marked(k)) ==> !Starts(k[i..] + Spelled(ps[1..]), ks))
  }

  lemma PassNamed(k: string, w: string, ks: seq<string>)
    requires k in ks && Marked(k) && forall i :: 0 < i < |k| ==> !Starts(k[i..] + w, ks)
    ensures Pass(k + w, ks) == RenameId(k) + Pass(w, ks)
  {
    hide Marked, MarkOf, Starts, Pass, RenameId;
    MarkParts(k);
    var p := MarkOf(k);
    var rest := k[|p.legacy|..];
    StartsItself(k, k + w, ks);
    PassStart(k + w, ks);
    MarkSame(k, k + w);
    forall i | 0 <= i < |rest| ensures !Starts(rest[i..] + w, ks) { assert rest[i..] == k[|p.legacy| + i..]; }
    PassSkip(rest, w, ks);
    assert (k + w)[|p.legacy|..] == rest + w;
  }

  lemma {:induction false} SparseFollows(ps: seq<Part>, ks: seq<string>)
    requires Given(ps, ks) && Sparse(ps, ks)
    ensures Pass(Spelled(ps), ks) == Renamed(ps)
    decreases |ps|
  {
    hide Marked, Starts, Pass, RenameId;
    if ps == [] {
      NothingPassed(ks);
    } else {
      var w := Spelled(ps[1..]);
      SparseFollows(ps[1..], ks);
      match ps[0] {
        case Plain(t) => PassSkip(t, w, ks);
        case Named(k) =>
          if Marked(k) {
            PassNamed(k, w, ks);
          } else {
            PassSkip(k, w, ks);
            KeptId(k);
          }
      }
    }
  }

  // ---------- and nothing else does: counting prefixes

  ghost function StartCount(s: string, ks: seq<string>): nat {
    if s == "" then 0 else (if Starts(s, ks) then 1 else 0) + StartCount(s[1..], ks)
  }

  function LegacyCount(ps: seq<Part>): nat {
    if ps == [] then 0 else (if ps[0].Named? && Marked(ps[0].id) then 1 else 0) + LegacyCount(ps[1..])
  }

  /** A front adds the ids that start in it. */
  lemma {:induction false} CountFront(a: string, w: string, ks: seq<string>)
    ensures StartCount(a + w, ks) >= StartCount(w, ks)
    ensures StartCount(a + w, ks) == StartCount(w, ks) <==> forall i :: 0 <= i < |a| ==> !Starts(a[i..] + w, ks)
    decreases |a|
  {
    hide Starts;
    if a == "" {
      assert a + w == w;
    } else {
      var b := a[1..];
      CountFront(b, w, ks);
      assert (a + w)[1..] == b + w && a[0..] == a;
      assert forall i :: 0 <= i < |b| ==> b[i..] == a[i + 1..];
      if forall i :: 0 <= i < |b| ==> !Starts(b[i..] + w, ks) {
        forall i | 0 < i < |a| ensures !Starts(a[i..] + w, ks) { assert a[i..] == b[i - 1..]; }
      }
      if forall i :: 0 <= i < |a| ==> !Starts(a[i..] + w, ks) {
        forall i | 0 <= i < |b| ensures !Starts(b[i..] + w, ks) { assert b[i..] == a[i + 1..]; }
      }
    }
  }

  lemma CountStart(p: Prefix, w: string, ks: seq<string>)
    requires IsPrefix(p) && Starts(p.legacy + w, ks)
    ensures StartCount(p.legacy + w, ks) == 1 + StartCount(w, ks)
  {
    hide IsPrefix, Marked, Starts;
    assert |p.legacy| > 1 by { Capitals(p); }
    var rest := p.legacy[1..];
    forall i | 0 <= i < |rest| ensures !Starts(rest[i..] + w, ks) {
      LegacyUnmarked(p, i + 1, w);
      assert rest[i..] == p.legacy[i + 1..];
      Unstarted(rest[i..] + w, ks);
    }
    CountFront(rest, w, ks);
    assert (p.legacy + w)[1..] == rest + w;
  }

  /** The pass takes away one mark for each id that starts in the text. */
  lemma {:induction false} PassMarks(x: string, s: string, ks: seq<string>)
    ensures Marks(x + Pass(s, ks)) + StartCount(s, ks) == Marks(x + s)
    decreases |s|
  {
    hide Marked, MarkOf, IsPrefix, Starts, Pass, Marks, Exchange;
    if s == "" {
      NothingPassed(ks);
    } else if Starts(s, ks) {
      StartsMarked(s, ks);
      PassStart(s, ks);
      MarkParts(s);
      var p := MarkOf(s);
      var w := s[|p.legacy|..];
      PassMarks(x + p.legacy, w, ks);
      ExchangeAt(x, p, Pass(w, ks));
      CountStart(p, w, ks);
      assert (x + p.legacy) + Pass(w, ks) == x + (p.legacy + Pass(w, ks)) && (x + p.legacy) + w == x + s;
    } else {
      PassChar(s, ks);
      PassMarks(x + [s[0]], s[1..], ks);
      assert x + Pass(s, ks) == (x + [s[0]]) + Pass(s[1..], ks) && x + s == (x + [s[0]]) + s[1..];
    }
  }

  lemma {:induction false} RenamedMarks(x: string, ps: seq<Part>)
    ensures Marks(x + Renamed(ps)) + LegacyCount(ps) == Marks(x + Spelled(ps))
    decreases |ps|
  {
    hide Marked, MarkOf, IsPrefix, Marks, Exchange, RenameId;
    if ps == [] {
    } else {
      var a, b := Renamed(ps[1..]), Spelled(ps[1..]);
      match ps[0] {
        case Plain(t) =>
          RenamedMarks(x + t, ps[1..]);
          assert (x + t) + a == x + (t + a) && (x + t) + b == x + (t + b);
        case Named(k) =>
          RenamedMarks(x + k, ps[1..]);
          assert (x + k) + a == x + (k + a) && (x + k) + b == x + (k + b);
          if Marked(k) {
            MarkParts(k);
            var p := MarkOf(k);
            var rest := k[|p.legacy|..];
            ExchangeAt(x, p, rest + a);
            assert p.legacy + (rest + a) == k + a && p.current + (rest + a) == RenameId(k) + a;
          } else {
            KeptId(k);
          }
      }
    }
  }

  /** There are at least as many ids in the text as were put there, and no more exactly if it is
      sparse. */
  lemma {:induction false} SparseCount(ps: seq<Part>, ks: seq<string>)
    requires Given(ps, ks)
    ensures StartCount(Spelled(ps), ks) >= LegacyCount(ps)
    ensures StartCount(Spelled(ps), ks) == LegacyCount(ps) ==> Sparse(ps, ks)
    decreases |ps|
  {
    hide Marked, Starts, StartCount;
    if ps == [] {
      NothingCounted(ks);
    } else {
      var w := Spelled(ps[1..]);
      SparseCount(ps[1..], ks);
      match ps[0] {
        case Plain(t) => CountFront(t, w, ks);
        case Named(k) =>
          if Marked(k) { CountNamed(k, w, ks); } else { CountFront(k, w, ks); }
      }
    }
  }

  lemma NothingCounted(ks: seq<string>)
    ensures StartCount("", ks) == 0
  {
  }

  lemma CountNamed(k: string, w: string, ks: seq<string>)
    requires k in ks && Marked(k)
    ensures StartCount(k + w, ks) >= 1 + StartCount(w, ks)
    ensures StartCount(k + w, ks) == 1 + StartCount(w, ks) ==> forall i :: 0 < i < |k| ==> !Starts(k[i..] + w, ks)
  {
    hide Marked, MarkOf, Starts;
    MarkParts(k);
    StartsItself(k, k + w, ks);
    var b := k[1..];
    CountFront(b, w, ks);
    assert (k + w)[1..] == b + w;
    if StartCount(b + w, ks) == StartCount(w, ks) {
      forall i | 0 < i < |k| ensures !Starts(k[i..] + w, ks) { assert k[i..] == b[i - 1..]; }
    }
  }

  /** An edge id put together from texts and component ids becomes the same texts with each id
      renamed exactly when ids to be renamed start nowhere else in it. */
  lemma EdgeIdExact(ps: seq<Part>, ks: seq<string>)
    requires AllSolid(ks) && Given(ps, ks)
    ensures ReplaceIds(Spelled(ps), ByLength(ks)) == Renamed(ps) <==> Sparse(ps, ks)
  {
    hide AllSolid, Sparse, Given, Pass, ReplaceIds, ByLength, Marks, StartCount;
    var s := Spelled(ps);
    EdgePass(s, ks);
    if Sparse(ps, ks) {
      SparseFollows(ps, ks);
    } else {
      PassMarks("", s, ks);
      RenamedMarks("", ps);
      SparseCount(ps, ks);
      assert "" + s == s && "" + Pass(s, ks) == Pass(s, ks) && "" + Renamed(ps) == Renamed(ps);
    }
  }
}
