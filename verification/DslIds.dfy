/** Component ids, their legacy prefixes, and the ids of edges, in which component ids are spelled
    out and replaced one after the other. */
module DslIds {

  /** A legacy prefix and what it becomes. */
  datatype Prefix = Prefix(legacy: string, current: string)

  const SPLITTER := Prefix("Splitter:", "TokenChunker:")
  const MERGER := Prefix("HierarchicalMerger:", "TitleChunker:")
  const GENERATOR := Prefix("PDFGenerator:", "DocGenerator:")

  predicate IsPrefix(p: Prefix) {
    p in {SPLITTER, MERGER, GENERATOR}
  }

  /** A legacy prefix stands at the start of `s`. */
  predicate Marked(s: string) {
    SPLITTER.legacy <= s || MERGER.legacy <= s || GENERATOR.legacy <= s
  }

  function MarkOf(s: string): (p: Prefix)
    requires Marked(s)
    ensures IsPrefix(p) && p.legacy <= s
  {
    if SPLITTER.legacy <= s then SPLITTER else if MERGER.legacy <= s then MERGER else GENERATOR
  }

  /** A legacy prefix is exchanged, the rest of the id kept. */
  function RenameId(x: string): string {
    if Marked(x) then MarkOf(x).current + x[|MarkOf(x).legacy|..] else x
  }

  /** The capitals that start the legacy prefixes occur nowhere else in them, nor in the current
      ones. */
  lemma Capitals(p: Prefix)
    requires IsPrefix(p)
    ensures |p.legacy| > 1 && |p.current| > 1 && p.legacy[0] in "SHP" && p.current[0] in "TD"
    ensures forall i :: 0 < i < |p.legacy| ==> p.legacy[i] !in "SHP" && p.legacy[i] != 'T'
    ensures forall i :: 0 <= i < |p.current| ==> p.current[i] !in "SHP"
    ensures forall i :: 0 < i < |p.legacy| && p.legacy[i] == 'D' ==> i + 1 < |p.legacy| && p.legacy[i + 1] != 'o'
    ensures p.current[0] == 'D' ==> p.current[1] == 'o'
  {
    if p == SPLITTER {
    } else if p == MERGER {
    } else {
      assert p == GENERATOR;
    }
  }

  lemma MarkedBy(p: Prefix, w: string)
    requires IsPrefix(p)
    ensures Marked(p.legacy + w) && MarkOf(p.legacy + w) == p && (p.legacy + w)[|p.legacy|..] == w
    ensures RenameId(p.legacy + w) == p.current + w
  {
    var t := p.legacy + w;
    assert t[0] == p.legacy[0] && p.legacy <= t;
  }

  /** A marked text cut at its prefix. */
  lemma MarkParts(k: string)
    requires Marked(k)
    ensures var p := MarkOf(k); var rest := k[|p.legacy|..];
            k == p.legacy + rest && RenameId(k) == p.current + rest && |p.legacy| > 1 && |p.current| > 1
            && |p.legacy| <= |k| && RenameId(k)[|p.current|..] == rest
  {
    Capitals(MarkOf(k));
    hide IsPrefix, MarkOf;
  }

  lemma RenameIdTwice(x: string)
    ensures RenameId(RenameId(x)) == RenameId(x)
  {
    if Marked(x) {
      var p := MarkOf(x);
      CurrentUnmarked(p, 0, x[|p.legacy|..]);
    }
  }

  /** No legacy prefix starts inside a current one. */
  lemma CurrentUnmarked(p: Prefix, i: nat, w: string)
    requires IsPrefix(p) && i < |p.current|
    ensures !Marked(p.current[i..] + w)
  {
    Capitals(p);
    var t := p.current[i..] + w;
    assert t[0] == p.current[i];
    if Marked(t) { Capitals(MarkOf(t)); }
  }

  /** No legacy prefix starts inside another. */
  lemma LegacyUnmarked(p: Prefix, i: nat, w: string)
    requires IsPrefix(p) && 0 < i < |p.legacy|
    ensures !Marked(p.legacy[i..] + w)
  {
    Capitals(p);
    var t := p.legacy[i..] + w;
    assert t[0] == p.legacy[i];
    if Marked(t) { Capitals(MarkOf(t)); }
  }

  lemma NotAcross(x: string, p: Prefix, w: string, q: Prefix)
    requires IsPrefix(p) && IsPrefix(q) && 0 < |x| < |q.legacy|
    ensures !(q.legacy <= x + (p.legacy + w)) && !(q.legacy <= x + (p.current + w))
  {
    Capitals(p);
    Capitals(q);
    var n := |x|;
    var a, b := x + (p.legacy + w), x + (p.current + w);
    hide IsPrefix;
    assert a[n] == p.legacy[0] && b[n] == p.current[0] && b[n + 1] == p.current[1];
    assert q.legacy[n] != a[n];
    assert q.legacy[n] != b[n] || (n + 1 < |q.legacy| && q.legacy[n + 1] != b[n + 1]);
  }

  /** What is marked in front of a prefix does not depend on the prefix: no mark reaches into it. */
  lemma MarkBefore(x: string, p: Prefix, w: string)
    requires IsPrefix(p) && x != ""
    ensures Marked(x + (p.legacy + w)) <==> Marked(x)
    ensures Marked(x + (p.current + w)) <==> Marked(x)
  {
    var a, b := x + (p.legacy + w), x + (p.current + w);
    assert x <= a && x <= b;
    if Marked(a) { MarkFits(x, p, w, MarkOf(a)); }
    if Marked(b) { MarkFits(x, p, w, MarkOf(b)); }
  }

  lemma MarkFits(x: string, p: Prefix, w: string, q: Prefix)
    requires IsPrefix(p) && IsPrefix(q) && x != ""
    requires q.legacy <= x + (p.legacy + w) || q.legacy <= x + (p.current + w)
    ensures q.legacy <= x && Marked(x)
  {
    if |x| < |q.legacy| { NotAcross(x, p, w, q); }
  }

  lemma MarkSame(x: string, y: string)
    requires Marked(x) && x <= y
    ensures Marked(y) && MarkOf(y) == MarkOf(x)
  {
    assert y[0] == x[0];
  }

  lemma UnmarkedStart(x: string, y: string)
    requires Marked(x) && !Marked(y)
    ensures !(x <= y)
  {
    if x <= y { MarkSame(x, y); }
  }

  // ---------- every legacy prefix exchanged

  /** The text with every legacy prefix in it exchanged. */
  function Exchange(s: string): string
    decreases |s|
  {
    if s == "" then "" else
    if Marked(s) then MarkOf(s).current + Exchange(s[|MarkOf(s).legacy|..])
    else [s[0]] + Exchange(s[1..])
  }

  lemma ExchangeMarked(s: string)
    requires Marked(s)
    ensures s != "" && Exchange(s) == MarkOf(s).current + Exchange(s[|MarkOf(s).legacy|..])
    ensures Marks(s) == 1 + Marks(s[1..])
  {
    Capitals(MarkOf(s));
    hide Marked, MarkOf, IsPrefix;
  }

  lemma ExchangeChar(s: string)
    requires s != "" && !Marked(s)
    ensures Exchange(s) == [s[0]] + Exchange(s[1..]) && Marks(s) == Marks(s[1..])
  {
    hide Marked, MarkOf;
  }

  /** How many legacy prefixes a text holds. */
  function Marks(s: string): nat {
    if s == "" then 0 else (if Marked(s) then 1 else 0) + Marks(s[1..])
  }

  /** An unmarked front stays as it is. */
  lemma {:induction false} SkipUnmarked(a: string, w: string)
    requires forall i :: 0 <= i < |a| ==> !Marked(a[i..] + w)
    ensures Exchange(a + w) == a + Exchange(w) && Marks(a + w) == Marks(w)
    decreases |a|
  {
    hide Marked, MarkOf, Exchange, Marks;
    if a == "" {
      assert a + w == w;
    } else {
      assert a[0..] == a;
      ExchangeChar(a + w);
      forall i | 0 <= i < |a[1..]| ensures !Marked(a[1..][i..] + w) { assert a[1..][i..] == a[i + 1..]; }
      SkipUnmarked(a[1..], w);
      assert (a + w)[1..] == a[1..] + w && a == [a[0]] + a[1..];
    }
  }

  /** Exchanging one legacy prefix in the middle of a text leaves the fully exchanged text as it
      was, and one mark less. */
  lemma {:induction false} ExchangeAt(x: string, p: Prefix, w: string)
    requires IsPrefix(p)
    ensures Exchange(x + (p.current + w)) == Exchange(x + (p.legacy + w))
    ensures Marks(x + (p.current + w)) + 1 == Marks(x + (p.legacy + w))
    decreases |x|
  {
    hide Marked, MarkOf, IsPrefix, Exchange, Marks;
    var a, b := x + (p.legacy + w), x + (p.current + w);
    if x == "" {
      ExchangeFirst(p, w);
      assert a == p.legacy + w && b == p.current + w;
    } else {
      MarkBefore(x, p, w);
      ExchangeAt(x[1..], p, w);
      assert a[1..] == x[1..] + (p.legacy + w) && b[1..] == x[1..] + (p.current + w);
      assert a[0] == b[0];
      if Marked(x) {
        MarkSame(x, a);
        MarkSame(x, b);
        MarkParts(x);
        var m := |MarkOf(x).legacy|;
        ExchangeMarked(a);
        ExchangeMarked(b);
        ExchangeAt(x[m..], p, w);
        assert a[m..] == x[m..] + (p.legacy + w) && b[m..] == x[m..] + (p.current + w);
      } else {
        ExchangeChar(a);
        ExchangeChar(b);
      }
    }
  }

  lemma ExchangeFirst(p: Prefix, w: string)
    requires IsPrefix(p)
    ensures Exchange(p.current + w) == Exchange(p.legacy + w) == p.current + Exchange(w)
    ensures Marks(p.current + w) + 1 == Marks(p.legacy + w) == Marks(w) + 1
  {
    hide Marked, IsPrefix, MarkOf, Exchange, Marks;
    assert |p.legacy| > 1 by { Capitals(p); }
    MarkedBy(p, w);
    ExchangeMarked(p.legacy + w);
    forall i | 0 <= i < |p.current| ensures !Marked(p.current[i..] + w) { CurrentUnmarked(p, i, w); }
    var rest := p.legacy[1..];
    forall i | 0 <= i < |rest| ensures !Marked(rest[i..] + w) {
      LegacyUnmarked(p, i + 1, w);
      assert rest[i..] == p.legacy[i + 1..];
    }
    SkipUnmarked(p.current, w);
    SkipUnmarked(rest, w);
    assert (p.legacy + w)[1..] == rest + w;
  }

  lemma {:induction false} NoMarks(s: string)
    requires forall i :: 0 <= i < |s| ==> !Marked(s[i..])
    ensures Exchange(s) == s
  {
    forall i | 0 <= i < |s| ensures !Marked(s[i..] + "") { assert s[i..] + "" == s[i..]; }
    SkipUnmarked(s, "");
    assert s + "" == s;
  }

  // ---------- one replacement

  /** `s.replace(x, y)`; the empty text is only ever replaced by itself. */
  function ReplaceAll(s: string, x: string, y: string): string
    decreases |s|
  {
    if x == "" || s == "" then s
    else if x <= s then y + ReplaceAll(s[|x|..], x, y)
    else [s[0]] + ReplaceAll(s[1..], x, y)
  }

  lemma {:induction false} ReplaceSelf(s: string, x: string)
    ensures ReplaceAll(s, x, x) == s
    decreases |s|
  {
    if x == "" || s == "" {
    } else if x <= s {
      ReplaceSelf(s[|x|..], x);
      assert s == x + s[|x|..];
    } else {
      ReplaceSelf(s[1..], x);
      assert s == [s[0]] + s[1..];
    }
  }

  ghost predicate Occurs(k: string, s: string) {
    exists i :: 0 <= i <= |s| && k <= s[i..]
  }

  lemma OccursLater(k: string, s: string)
    requires s != "" && !(k <= s)
    ensures Occurs(k, s) <==> Occurs(k, s[1..])
  {
    if Occurs(k, s) {
      var i :| 0 <= i <= |s| && k <= s[i..];
      assert s[0..] == s && (i > 0 ==> s[i..] == s[1..][i - 1..]);
    }
    if Occurs(k, s[1..]) {
      var i :| 0 <= i <= |s[1..]| && k <= s[1..][i..];
      assert s[i + 1..] == s[1..][i..];
    }
  }

  /** Replacing a legacy id, behind any text, exchanges prefixes and does nothing else. */
  lemma {:induction false} PassExchanges(x: string, s: string, k: string)
    requires Marked(k)
    ensures var r := ReplaceAll(s, k, RenameId(k));
            Exchange(x + r) == Exchange(x + s) && Marks(x + r) <= Marks(x + s)
            && (Occurs(k, s) ==> Marks(x + r) < Marks(x + s)) && (!Occurs(k, s) ==> r == s)
    decreases |s|
  {
    hide Marked, MarkOf, Exchange, Marks, IsPrefix, Occurs, RenameId;
    var r := ReplaceAll(s, k, RenameId(k));
    NothingOccurs(k);
    if s == "" {
    } else if k <= s {
      MarkParts(k);
      assert Occurs(k, s) by { OccursFirst(k, s); }
      var p := MarkOf(k);
      var rest, t := k[|p.legacy|..], s[|k|..];
      var t' := ReplaceAll(t, k, RenameId(k));
      PassExchanges(x + k, t, k);
      ExchangeAt(x, p, rest + t');
      assert s == k + t && r == RenameId(k) + t';
      assert x + r == x + (p.current + (rest + t'));
      assert (x + k) + t' == x + (p.legacy + (rest + t'));
      assert (x + k) + t == x + s;
    } else {
      var t, t' := s[1..], ReplaceAll(s[1..], k, RenameId(k));
      PassExchanges(x + [s[0]], t, k);
      OccursLater(k, s);
      assert r == [s[0]] + t' && s == [s[0]] + t;
      assert x + r == (x + [s[0]]) + t' && x + s == (x + [s[0]]) + t;
    }
  }

  lemma OccursFirst(k: string, s: string)
    requires k <= s
    ensures Occurs(k, s)
  {
    assert s[0..] == s;
  }

  lemma NothingOccurs(k: string)
    requires Marked(k)
    ensures k != "" && !Occurs(k, "")
  {
    MarkParts(k);
  }

  // ---------- the order of the replacements

  ghost predicate Falling(ks: seq<string>) {
    forall i, j :: 0 <= i < j < |ks| ==> |ks[i]| >= |ks[j]|
  }

  function InsertByLength(ks: seq<string>, k: string): (r: seq<string>)
    ensures forall x :: x in r <==> x in ks || x == k
    ensures Falling(ks) ==> Falling(r)
  {
    if ks == [] then [k]
    else
      var last, init := ks[|ks| - 1], ks[..|ks| - 1];
      assert ks == init + [last];
      if |last| >= |k| then ks + [k]
      else
        var r := InsertByLength(init, k) + [last];
        assert forall x :: x in InsertByLength(init, k) && Falling(ks) ==> |x| >= |last|;
        r
  }

  /** Longest first. */
  function ByLength(ks: seq<string>): (r: seq<string>)
    ensures forall x :: x in r <==> x in ks
    ensures Falling(r)
  {
    if ks == [] then [] else
    assert ks == ks[..|ks| - 1] + [ks[|ks| - 1]];
    InsertByLength(ByLength(ks[..|ks| - 1]), ks[|ks| - 1])
  }

  function OfLength(ks: seq<string>, n: nat): seq<string> {
    if ks == [] then [] else
    OfLength(ks[..|ks| - 1], n) + if |ks[|ks| - 1]| == n then [ks[|ks| - 1]] else []
  }

  lemma {:induction false} InsertStable(ks: seq<string>, k: string, n: nat)
    ensures OfLength(InsertByLength(ks, k), n) == OfLength(ks, n) + if |k| == n then [k] else []
    decreases |ks|
  {
    var r := InsertByLength(ks, k);
    if ks == [] {
      assert r[..0] == [];
    } else {
      var init, last := ks[..|ks| - 1], ks[|ks| - 1];
      if |last| >= |k| {
        assert r[..|ks|] == ks;
      } else {
        InsertStable(init, k, n);
        assert r[..|r| - 1] == InsertByLength(init, k) && r[|r| - 1] == last;
      }
    }
  }

  /** The order is stable: ids of one length stay in their old order. With `Falling` this
      determines it. */
  lemma {:induction false} ByLengthStable(ks: seq<string>, n: nat)
    ensures Falling(ByLength(ks)) && OfLength(ByLength(ks), n) == OfLength(ks, n)
    decreases |ks|
  {
    if ks == [] {
    } else {
      ByLengthStable(ks[..|ks| - 1], n);
      InsertStable(ByLength(ks[..|ks| - 1]), ks[|ks| - 1], n);
    }
  }

  // ---------- all replacements

  /** The replacements applied one after the other. */
  function ReplaceIds(s: string, ks: seq<string>): string {
    if ks == [] then s else ReplaceAll(ReplaceIds(s, ks[..|ks| - 1]), ks[|ks| - 1], RenameId(ks[|ks| - 1]))
  }

  lemma ReplaceIdsSnoc(s: string, ks: seq<string>, n: nat)
    requires n < |ks|
    ensures ReplaceIds(s, ks[..n + 1]) == ReplaceAll(ReplaceIds(s, ks[..n]), ks[n], RenameId(ks[n]))
  {
    assert ks[..n + 1][..n] == ks[..n];
  }

  lemma {:induction false} ReplaceIdsStill(s: string, ks: seq<string>)
    requires forall k :: k in ks ==> RenameId(k) == k
    ensures ReplaceIds(s, ks) == s
    decreases |ks|
  {
    if ks == [] {
    } else {
      ReplaceIdsStill(s, ks[..|ks| - 1]);
      assert ks[|ks| - 1] in ks;
      ReplaceSelf(s, ks[|ks| - 1]);
    }
  }

  /** From one replacement to a later one marks are only lost, and if none is lost the text has
      not changed. */
  lemma {:induction false} MarksFall(s: string, ks: seq<string>, i: nat, j: nat)
    requires i <= j <= |ks|
    ensures var a, b := ReplaceIds(s, ks[..i]), ReplaceIds(s, ks[..j]);
            Exchange(a) == Exchange(b) && Marks(b) <= Marks(a) && (Marks(b) == Marks(a) ==> a == b)
    decreases j
  {
    hide Marked, Exchange, Marks, ReplaceIds, ReplaceAll, Occurs, RenameId;
    if i == j {
    } else {
      MarksFall(s, ks, i, j - 1);
      ReplaceIdsSnoc(s, ks, j - 1);
      OnePass(ReplaceIds(s, ks[..j - 1]), ks[j - 1]);
    }
  }

  lemma OnePass(s: string, k: string)
    ensures var r := ReplaceAll(s, k, RenameId(k));
            Exchange(r) == Exchange(s) && Marks(r) <= Marks(s) && (Marks(r) == Marks(s) ==> r == s)
    ensures Marked(k) && Occurs(k, s) ==> Marks(ReplaceAll(s, k, RenameId(k))) < Marks(s)
    ensures !Marked(k) || !Occurs(k, s) ==> ReplaceAll(s, k, RenameId(k)) == s
  {
    if Marked(k) {
      PassExchanges("", s, k);
      var r := ReplaceAll(s, k, RenameId(k));
      assert "" + r == r && "" + s == s;
    } else {
      ReplaceSelf(s, k);
    }
  }

  /** Whatever ids there are, in whatever order: replacing them in a text exchanges some of its
      legacy prefixes and changes nothing else. */
  lemma OnlyExchanges(s: string, ks: seq<string>)
    ensures Exchange(ReplaceIds(s, ks)) == Exchange(s) && Marks(ReplaceIds(s, ks)) <= Marks(s)
    ensures ReplaceIds(s, ks) == s || Marks(ReplaceIds(s, ks)) < Marks(s)
  {
    MarksFall(s, ks, 0, |ks|);
    assert ks[..0] == [] && ks[..|ks|] == ks;
  }

  // ---------- texts in which ids occur apart

  /** No legacy prefix starts strictly inside the `n` characters from `p` on. */
  ghost predicate Clear(s: string, p: nat, n: nat) {
    forall q {:trigger s[q..]} :: p < q < p + n && q < |s| ==> !Marked(s[q..])
  }

  /** An id of `ks` stands at `p`, with no further legacy prefix starting inside it. */
  ghost predicate Covered(s: string, p: nat, ks: seq<string>)
    requires p <= |s|
  {
    exists k :: k in ks && Marked(k) && k <= s[p..] && Clear(s, p, |k|)
  }

  /** Every legacy prefix in the text starts an id, and these do not overlap. */
  ghost predicate IdsApart(s: string, ks: seq<string>) {
    forall p: nat {:trigger s[p..]} :: p < |s| && Marked(s[p..]) ==> Covered(s, p, ks)
  }

  lemma ClearMoves(s: string, p: nat, t: string, q: nat, n: nat)
    requires p <= |s| && q <= |t| && s[p..] == t[q..] && Clear(s, p, n)
    ensures Clear(t, q, n)
  {
    hide Marked;
    forall j | q < j < q + n && j < |t| ensures !Marked(t[j..]) {
      assert t[j..] == t[q..][j - q..] == s[p..][j - q..] == s[p + j - q..];
    }
  }

  lemma CoveredMoves(s: string, p: nat, t: string, q: nat, ks: seq<string>)
    requires p <= |s| && q <= |t| && s[p..] == t[q..] && Covered(s, p, ks)
    ensures Covered(t, q, ks)
  {
    hide Marked, Clear;
    var k :| k in ks && Marked(k) && k <= s[p..] && Clear(s, p, |k|);
    ClearMoves(s, p, t, q, |k|);
  }

  /** Marks before `n` are covered by ids of `rest`, marks from there on also by `k`. */
  ghost predicate SplitCover(s: string, n: nat, k: string, rest: seq<string>) {
    && n <= |s|
    && (forall p: nat {:trigger s[p..]} :: p < n && Marked(s[p..]) ==> Covered(s, p, rest))
    && (forall p: nat {:trigger s[p..]} :: n <= p < |s| && Marked(s[p..]) ==> Covered(s, p, [k] + rest))
  }

  /** Marks in front of the exchanged prefix stay covered. */
  lemma CoverBefore(x: string, p: Prefix, w: string, i: nat, ks: seq<string>)
    requires IsPrefix(p) && i < |x|
    requires Marked((x + (p.legacy + w))[i..]) ==> Covered(x + (p.legacy + w), i, ks)
    ensures Marked((x + (p.current + w))[i..]) ==> Covered(x + (p.current + w), i, ks)
  {
    hide IsPrefix, Marked, MarkOf, RenameId;
    var a, b := x + (p.legacy + w), x + (p.current + w);
    forall j: nat | j < |x| ensures Marked(a[j..]) <==> Marked(b[j..]) {
      MarkBefore(x[j..], p, w);
      assert a[j..] == x[j..] + (p.legacy + w) && b[j..] == x[j..] + (p.current + w);
    }
    if Marked(b[i..]) {
      var k :| k in ks && Marked(k) && k <= a[i..] && Clear(a, i, |k|);
      MarkedBy(p, w);
      assert a[|x|..] == p.legacy + w;
      assert i + |k| <= |x|;
      assert k == a[i..][..|k|] == x[i..i + |k|] == b[i..][..|k|];
      assert Clear(b, i, |k|);
    }
  }

  /** Marks behind the exchanged prefix stay covered, and not by `k` alone if they lie inside it. */
  lemma CoverInside(x: string, k: string, t: string, j: nat, rest: seq<string>)
    requires Marked(k) && 0 < j < |k| && forall r :: r in rest ==> |r| <= |k|
    requires var s := x + k + t; Marked(s[|x| + j..])
                                 && Covered(s, |x|, [k] + rest) && Covered(s, |x| + j, [k] + rest)
    ensures Covered(x + k + t, |x| + j, rest)
  {
    hide Marked;
    var s := x + k + t;
    var n := |x| + j;
    var c :| c in [k] + rest && Marked(c) && c <= s[n..] && Clear(s, n, |c|);
    if c == k {
      var b :| b in [k] + rest && Marked(b) && b <= s[|x|..] && Clear(s, |x|, |b|);
      assert b != k;
      assert b in rest;
      assert s[|x|..] == k + t;
      assert b <= k;
      assert b <= s[n..];
    } else {
      assert c in rest;
    }
  }

  lemma CoverAt(s: string, n: nat, k: string, rest: seq<string>, i: nat)
    requires SplitCover(s, n, k, rest) && n <= i < |s| && Marked(s[i..])
    ensures Covered(s, i, [k] + rest)
  {
    hide Marked, Covered;
  }

  /** Behind the current prefix the text is what it was behind the legacy one. */
  lemma CoverBehind(x: string, k: string, t: string, rest: seq<string>, b: string, i: nat)
    requires Marked(k) && SplitCover(x + k + t, |x|, k, rest) && forall r :: r in rest ==> |r| <= |k|
    requires b == x + (MarkOf(k).current + (k[|MarkOf(k).legacy|..] + t))
    requires |x| + |MarkOf(k).current| <= i < |b| && Marked(b[i..])
    ensures Covered(b, i, if i < |x| + |RenameId(k)| then rest else [k] + rest)
  {
    hide Marked, MarkOf, Covered, IsPrefix, RenameId, SplitCover;
    MarkParts(k);
    var p, a := MarkOf(k), x + k + t;
    var w, j := k[|p.legacy|..] + t, i - |p.current| + |p.legacy|;
    assert b[i..] == a[j..] by {
      assert a == x + p.legacy + w && b == x + p.current + w;
      assert b[i..] == w[i - |x| - |p.current|..] == a[j..];
    }
    CoverAt(a, |x|, k, rest, j);
    if j < |x| + |k| {
      assert a[|x|..] == k + t;
      MarkSame(k, k + t);
      CoverAt(a, |x|, k, rest, |x|);
      CoverInside(x, k, t, j - |x|, rest);
      CoveredMoves(a, j, b, i, rest);
    } else {
      CoveredMoves(a, j, b, i, [k] + rest);
    }
  }

  lemma CoverStep(x: string, k: string, t: string, rest: seq<string>)
    requires Marked(k) && SplitCover(x + k + t, |x|, k, rest) && forall r :: r in rest ==> |r| <= |k|
    ensures SplitCover(x + RenameId(k) + t, |x| + |RenameId(k)|, k, rest)
  {
    hide Marked, MarkOf, Covered, IsPrefix, RenameId;
    MarkParts(k);
    var p := MarkOf(k);
    var w := k[|p.legacy|..] + t;
    var a, b := x + k + t, x + RenameId(k) + t;
    assert a == x + (p.legacy + w) && b == x + (p.current + w);
    forall i: nat | |x| <= i < |x| + |p.current| ensures !Marked(b[i..]) {
      CurrentUnmarked(p, i - |x|, w);
      assert b[i..] == p.current[i - |x|..] + w;
    }
    forall i: nat | i < |b| && Marked(b[i..])
      ensures Covered(b, i, if i < |x| + |RenameId(k)| then rest else [k] + rest)
    {
      if i < |x| {
        CoverBefore(x, p, w, i, rest);
      } else {
        CoverBehind(x, k, t, rest, b, i);
      }
    }
  }

  /** After the pass of `k` the remaining ids cover every mark that is left. */
  lemma {:induction false} PassCovers(x: string, s: string, k: string, rest: seq<string>)
    requires Marked(k) && SplitCover(x + s, |x|, k, rest) && forall r :: r in rest ==> |r| <= |k|
    ensures IdsApart(x + ReplaceAll(s, k, RenameId(k)), rest)
    decreases |s|
  {
    hide Marked, Covered, RenameId, SplitCover, IdsApart;
    var r := ReplaceAll(s, k, RenameId(k));
    NothingOccurs(k);
    if s == "" {
      assert x + s == x + r == x;
      CoverEnds(x, k, rest);
    } else if k <= s {
      var t := s[|k|..];
      assert x + s == x + k + t;
      CoverStep(x, k, t, rest);
      PassCovers(x + RenameId(k), t, k, rest);
      assert x + r == (x + RenameId(k)) + ReplaceAll(t, k, RenameId(k));
    } else {
      CoverMore(x, s, k, rest);
      assert x + s == (x + [s[0]]) + s[1..];
      PassCovers(x + [s[0]], s[1..], k, rest);
      assert x + r == (x + [s[0]]) + ReplaceAll(s[1..], k, RenameId(k));
    }
  }

  lemma CoverEnds(x: string, k: string, rest: seq<string>)
    requires SplitCover(x, |x|, k, rest)
    ensures IdsApart(x, rest)
  {
  }

  lemma CoverMore(x: string, s: string, k: string, rest: seq<string>)
    requires s != "" && SplitCover(x + s, |x|, k, rest) && !(k <= s)
    ensures SplitCover(x + s, |x| + 1, k, rest)
  {
    hide Marked, Clear;
    var t := x + s;
    assert t[|x|..] == s;
    if Marked(s) {
      var c :| c in [k] + rest && Marked(c) && c <= t[|x|..] && Clear(t, |x|, |c|);
      assert c in rest;
    }
  }

  lemma ApartSplit(s: string, k: string, rest: seq<string>)
    requires IdsApart(s, [k] + rest)
    ensures SplitCover("" + s, 0, k, rest)
    ensures !Marked(k) ==> IdsApart(s, rest)
  {
    hide Marked, Clear;
    assert "" + s == s;
    if !Marked(k) {
      forall p: nat | p < |s| && Marked(s[p..]) ensures Covered(s, p, rest) {
        var c :| c in [k] + rest && Marked(c) && c <= s[p..] && Clear(s, p, |c|);
        assert c in rest;
      }
    }
  }

  lemma {:induction false} ApartKept(s: string, order: seq<string>, n: nat)
    requires IdsApart(s, order) && Falling(order) && n <= |order|
    ensures IdsApart(ReplaceIds(s, order[..n]), order[n..])
    decreases n
  {
    hide Marked, IdsApart, RenameId, ReplaceAll, ReplaceIds, SplitCover;
    if n == 0 {
      assert order[..0] == [] && order[0..] == order;
      NoIds(s);
    } else {
      var before, k, rest := ReplaceIds(s, order[..n - 1]), order[n - 1], order[n..];
      ApartKept(s, order, n - 1);
      assert order[n - 1..] == [k] + rest;
      ApartSplit(before, k, rest);
      ReplaceIdsSnoc(s, order, n - 1);
      var after := ReplaceAll(before, k, RenameId(k));
      if Marked(k) {
        PassCovers("", before, k, rest);
        assert "" + after == after;
      } else {
        OnePass(before, k);
      }
    }
  }

  lemma NoIds(s: string)
    ensures ReplaceIds(s, []) == s
  {
  }

  /** Where ids occur apart, the replacements exchange every legacy prefix, once. */
  lemma ApartExchanged(s: string, ks: seq<string>)
    requires IdsApart(s, ks)
    ensures ReplaceIds(s, ByLength(ks)) == Exchange(s)
  {
    hide Marked, ReplaceIds, Clear, ByLength;
    var order := ByLength(ks);
    forall p: nat | p < |s| && Marked(s[p..]) ensures Covered(s, p, order) {
      var k :| k in ks && Marked(k) && k <= s[p..] && Clear(s, p, |k|);
      assert k in order;
    }
    ApartKept(s, order, |order|);
    assert order[..|order|] == order && order[|order|..] == [];
    NoMarks(ReplaceIds(s, order));
    OnlyExchanges(s, order);
  }

  // ---------- edge ids put together from texts and component ids

  datatype Part = Plain(text: string) | Named(id: string)

  function Spelled(ps: seq<Part>): string {
    if ps == [] then "" else (match ps[0] case Plain(t) => t case Named(k) => k) + Spelled(ps[1..])
  }

  /** The same text with each id renamed. */
  function Renamed(ps: seq<Part>): string {
    if ps == [] then "" else (match ps[0] case Plain(t) => t case Named(k) => RenameId(k)) + Renamed(ps[1..])
  }

  /** Legacy prefixes start nowhere but at the start of the legacy ids among the parts. */
  ghost predicate Tidy(ps: seq<Part>, ks: seq<string>) {
    ps == [] ||
    (Tidy(ps[1..], ks) &&
     match ps[0]
     case Plain(t) => forall i :: 0 <= i < |t| ==> !Marked(t[i..] + Spelled(ps[1..]))
     case Named(k) =>
       k in ks && forall i :: 0 <= i < |k| && !(i == 0 && Marked(k)) ==> !Marked(k[i..] + Spelled(ps[1..])))
  }

  lemma ApartBehind(a: string, w: string, ks: seq<string>)
    requires IdsApart(w, ks)
    requires forall i: nat :: i < |a| && Marked(a[i..] + w) ==> Covered(a + w, i, ks)
    ensures IdsApart(a + w, ks)
  {
    hide Marked, Covered;
    var s := a + w;
    forall p: nat | p < |s| && Marked(s[p..]) ensures Covered(s, p, ks) {
      if p < |a| {
        assert s[p..] == a[p..] + w;
      } else {
        assert s[p..] == w[p - |a|..];
        CoveredMoves(w, p - |a|, s, p, ks);
      }
    }
  }

  lemma NamedCovered(k: string, w: string, ks: seq<string>)
    requires k in ks && Marked(k) && forall i :: 0 < i < |k| ==> !Marked(k[i..] + w)
    ensures Covered(k + w, 0, ks)
  {
    hide Marked;
    var s := k + w;
    assert s[0..] == s && k <= s;
    forall q | 0 < q < |k| && q < |s| ensures !Marked(s[q..]) { assert s[q..] == k[q..] + w; }
    assert Clear(s, 0, |k|);
  }

  lemma NamedExchanged(k: string, w: string)
    requires Marked(k) && forall i :: 0 < i < |k| ==> !Marked(k[i..] + w)
    ensures Exchange(k + w) == RenameId(k) + Exchange(w)
  {
    hide Marked, MarkOf, Exchange, RenameId;
    var p := MarkOf(k);
    var rest := k[|p.legacy|..];
    MarkParts(k);
    MarkSame(k, k + w);
    ExchangeMarked(k + w);
    forall i | 0 <= i < |rest| ensures !Marked(rest[i..] + w) { assert rest[i..] == k[|p.legacy| + i..]; }
    SkipUnmarked(rest, w);
    assert (k + w)[|p.legacy|..] == rest + w;
  }

  lemma {:induction false} TidyExchanged(ps: seq<Part>, ks: seq<string>)
    requires Tidy(ps, ks)
    ensures IdsApart(Spelled(ps), ks) && Exchange(Spelled(ps)) == Renamed(ps)
    decreases |ps|
  {
    hide Marked, Covered, Exchange, IdsApart, RenameId, Clear;
    if ps == [] {
      NothingApart(ks);
    } else {
      var w := Spelled(ps[1..]);
      TidyExchanged(ps[1..], ks);
      match ps[0] {
        case Plain(t) =>
          ApartBehind(t, w, ks);
          SkipUnmarked(t, w);
        case Named(k) =>
          if Marked(k) {
            NamedCovered(k, w, ks);
            ApartBehind(k, w, ks);
            NamedExchanged(k, w);
          } else {
            ApartBehind(k, w, ks);
            SkipUnmarked(k, w);
            KeptId(k);
          }
      }
    }
  }

  lemma KeptId(k: string)
    requires !Marked(k)
    ensures RenameId(k) == k
  {
  }

  lemma NothingApart(ks: seq<string>)
    ensures IdsApart("", ks) && Exchange("") == ""
  {
  }

  /** An edge id put together from texts and component ids becomes the same texts with the renamed
      ids, provided legacy prefixes start nowhere else in it. Ids may be prefixes of one another,
      and may stand next to text that continues them. */
  lemma EdgeIdFollows(ps: seq<Part>, ks: seq<string>)
    requires Tidy(ps, ks)
    ensures ReplaceIds(Spelled(ps), ByLength(ks)) == Renamed(ps)
  {
    TidyExchanged(ps, ks);
    ApartExchanged(Spelled(ps), ks);
  }

  // ---------- ids inside ids

  /** A legacy id of `ks` stands inside `k`, not at its start. */
  ghost predicate Inside(k: string, ks: seq<string>) {
    exists c, j :: c in ks && Marked(c) && 0 < j <= |k| && c <= k[j..]
  }

  lemma InsideOccurs(k: string, c: string, j: nat)
    requires Marked(k) && Marked(c) && 0 < j <= |k| && c <= k[j..]
    ensures Occurs(c, RenameId(k)) && |c| < |k|
  {
    hide Marked, MarkOf, RenameId;
    var p := MarkOf(k);
    MarkParts(k);
    if j < |p.legacy| {
      LegacyUnmarked(p, j, k[|p.legacy|..]);
      assert k[j..] == p.legacy[j..] + k[|p.legacy|..];
      MarkSame(c, k[j..]);
    }
    assert k[j..] == RenameId(k)[j - |p.legacy| + |p.current|..];
  }

  lemma OccursInside(k: string, c: string) returns (j: nat)
    requires Marked(k) && Marked(c) && Occurs(c, RenameId(k))
    ensures 0 < j <= |k| && c <= k[j..]
  {
    hide Marked, MarkOf, RenameId, IsPrefix;
    var p := MarkOf(k);
    var w := k[|p.legacy|..];
    MarkParts(k);
    var i :| 0 <= i <= |RenameId(k)| && c <= RenameId(k)[i..];
    NothingOccurs(c);
    forall n: nat | n < |p.current| ensures !(c <= RenameId(k)[n..]) {
      CurrentUnmarked(p, n, w);
      assert RenameId(k)[n..] == p.current[n..] + w;
      UnmarkedStart(c, RenameId(k)[n..]);
    }
    j := i - |p.current| + |p.legacy|;
    assert RenameId(k)[i..] == w[i - |p.current|..] == k[j..];
  }

  lemma TooLong(c: string, k: string)
    requires |c| >= |k| && c != k
    ensures !Occurs(c, k)
  {
    assert k[0..] == k;
  }

  /** Longer ids do not touch a text that is itself an id, and its own pass renames it. */
  lemma {:induction false} OwnPass(k: string, order: seq<string>, n: nat, m: nat)
    requires Marked(k) && Falling(order) && n < |order| && order[n] == k && m <= n
    requires forall i :: 0 <= i < n ==> order[i] != k
    ensures ReplaceIds(k, order[..m]) == k
    decreases m
  {
    hide Marked, ReplaceAll, RenameId, ReplaceIds;
    if m == 0 {
      assert order[..0] == [];
      NoIds(k);
    } else {
      OwnPass(k, order, n, m - 1);
      ReplaceIdsSnoc(k, order, m - 1);
      var c := order[m - 1];
      OnePass(k, c);
      assert !Occurs(c, k) by { TooLong(c, k); }
    }
  }

  lemma {:induction false} FirstAt(k: string, order: seq<string>) returns (n: nat)
    requires k in order
    ensures n < |order| && order[n] == k && forall i :: 0 <= i < n ==> order[i] != k
    decreases |order|
  {
    if order[0] == k {
      n := 0;
    } else {
      var m := FirstAt(k, order[1..]);
      n := m + 1;
      assert forall i :: 0 < i < |order| ==> order[i] == order[1..][i - 1];
    }
  }

  lemma SelfReplaced(k: string)
    requires Marked(k)
    ensures ReplaceAll(k, k, RenameId(k)) == RenameId(k)
  {
    NothingOccurs(k);
    assert k[|k|..] == "";
  }

  lemma NotThere(k: string, c: string, order: seq<string>)
    requires Marked(k) && c in order && !Inside(k, order)
    ensures !Marked(c) || !Occurs(c, RenameId(k))
  {
    hide Marked, RenameId, Occurs;
    if Marked(c) {
      if Occurs(c, RenameId(k)) {
        var j := OccursInside(k, c);
      }
    }
  }

  /** Once renamed, an id without others inside is left alone by the shorter ones. */
  lemma {:induction false} RenamedStays(k: string, order: seq<string>, n: nat, m: nat)
    requires Marked(k) && n < m <= |order| && ReplaceIds(k, order[..n + 1]) == RenameId(k) && !Inside(k, order)
    ensures ReplaceIds(k, order[..m]) == RenameId(k)
    decreases m
  {
    hide Marked, ReplaceAll, RenameId, ReplaceIds, Occurs;
    if m == n + 1 {
    } else {
      RenamedStays(k, order, n, m - 1);
      ReplaceIdsSnoc(k, order, m - 1);
      var c := order[m - 1];
      OnePass(RenameId(k), c);
      NotThere(k, c, order);
    }
  }

  /** A shorter id inside the renamed one is replaced as well, for good. */
  lemma InsideReplaced(k: string, order: seq<string>, n: nat, c: string, j: nat)
    requires Marked(k) && Falling(order) && n < |order| && order[n] == k
    requires ReplaceIds(k, order[..n + 1]) == RenameId(k)
    requires c in order && Marked(c) && 0 < j <= |k| && c <= k[j..]
    ensures ReplaceIds(k, order) != RenameId(k)
  {
    hide Marked, ReplaceAll, RenameId, ReplaceIds, Occurs, Marks, Exchange;
    InsideOccurs(k, c, j);
    var m := FirstAt(c, order);
    assert n < m by { assert |order[m]| < |order[n]|; }
    hide Falling;
    MarksFall(k, order, n + 1, m);
    ReplaceIdsSnoc(k, order, m);
    OnePass(ReplaceIds(k, order[..m]), c);
    MarksFall(k, order, m + 1, |order|);
    assert order[..|order|] == order;
  }

  /** A text that is a legacy id becomes that id renamed exactly when no other legacy id stands
      inside it. */
  lemma OneIdExact(k: string, ks: seq<string>)
    requires k in ks && Marked(k)
    ensures ReplaceIds(k, ByLength(ks)) == RenameId(k) <==> !Inside(k, ks)
  {
    hide Marked, ReplaceAll, RenameId, ReplaceIds, Occurs, ByLength;
    var order := ByLength(ks);
    var n := FirstAt(k, order);
    OwnPass(k, order, n, n);
    ReplaceIdsSnoc(k, order, n);
    SelfReplaced(k);
    if Inside(k, ks) {
      var c, j: nat :| c in ks && Marked(c) && 0 < j <= |k| && c <= k[j..];
      InsideReplaced(k, order, n, c, j);
    } else {
      assert !Inside(k, order);
      assert order[..|order|] == order;
      RenamedStays(k, order, n, |order|);
    }
  }

  /** An id with another one inside: both prefixes are exchanged, where the id map exchanges the
      first only. */
  lemma EdgeOverlap()
    ensures var ks := ["Splitter:a", "Splitter:Splitter:a"];
            ReplaceIds("Splitter:Splitter:a", ByLength(ks)) != RenameId("Splitter:Splitter:a")
  {
    var ks := ["Splitter:a", "Splitter:Splitter:a"];
    var k, c := "Splitter:Splitter:a", "Splitter:a";
    assert c in ks && k in ks && k[9..] == c && Marked(c) && Marked(k);
    assert Inside(k, ks);
    OneIdExact(k, ks);
  }

  /** The loop over the replacements. */
  method RewriteEdgeId(s: string, ks: seq<string>) returns (r: string)
    ensures r == ReplaceIds(s, ByLength(ks))
    ensures Exchange(r) == Exchange(s)
    ensures IdsApart(s, ks) ==> r == Exchange(s)
    ensures s in ks && Marked(s) ==> (r == RenameId(s) <==> !Inside(s, ks))
  {
    hide Exchange, IdsApart, Inside;
    var order := ByLength(ks);
    r := s;
    for i := 0 to |order|
      invariant r == ReplaceIds(s, order[..i])
    {
      assert order[..i + 1][..i] == order[..i];
      r := ReplaceAll(r, order[i], RenameId(order[i]));
    }
    assert order[..|order|] == order;
    OnlyExchanges(s, order);
    if IdsApart(s, ks) { ApartExchanged(s, ks); }
    if s in ks && Marked(s) { OneIdExact(s, ks); }
  }
}
