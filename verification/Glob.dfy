/** Patterns with one "any run" and one "any single" character and backslash as escape, as in
    Elasticsearch `wildcard` queries (`*`, `?`) and SQL `LIKE` (`%`, `_`), and the escaping
    that keeps user text literal inside them. */
module Glob {

  // ---------- text

  /** ASCII lower-casing. */
  function FoldChar(c: char): (r: char)
    ensures 'A' <= c <= 'Z' <==> r != c
    ensures !('A' <= r <= 'Z')
  {
    if 'A' <= c <= 'Z' then (c as int - 'A' as int + 'a' as int) as char else c
  }

  function Fold(s: string): (r: string)
    ensures |r| == |s| && forall i :: 0 <= i < |r| ==> r[i] == FoldChar(s[i])
  {
    seq(|s|, i requires 0 <= i < |s| => FoldChar(s[i]))
  }

  predicate StartsWith(s: string, t: string) { t <= s }

  predicate EndsWith(s: string, t: string) { |t| <= |s| && s[|s| - |t|..] == t }

  predicate Infix(t: string, s: string) {
    exists i :: 0 <= i <= |s| && OccursAt(t, s, i)
  }

  predicate OccursAt(t: string, s: string, i: int) {
    0 <= i <= |s| - |t| && s[i..i + |t|] == t
  }

  // ---------- patterns

  /** Which characters are special, and whether letters match regardless of ASCII case. */
  datatype Dialect = Dialect(star: char, one: char, folds: bool)

  ghost predicate DialectOk(d: Dialect) {
    d.star != d.one && d.star != '\\' && d.one != '\\'
  }

  const WILDCARD := Dialect('*', '?', true)
  const LIKE := Dialect('%', '_', false)

  function Norm(d: Dialect, s: string): (r: string)
    ensures |r| == |s|
  {
    if d.folds then Fold(s) else s
  }

  predicate SameChar(d: Dialect, a: char, b: char) {
    if d.folds then FoldChar(a) == FoldChar(b) else a == b
  }

  /** Does the pattern match the whole of `s`? A backslash makes the next character literal;
      at the very end it stands for itself. */
  ghost predicate Match(d: Dialect, p: string, s: string)
    decreases |p|
  {
    if p == "" then s == ""
    else if p[0] == d.star then exists k :: MatchFrom(d, p, s, k)
    else if p[0] == d.one then s != "" && Match(d, p[1..], s[1..])
    else if p[0] == '\\' && |p| > 1 then s != "" && SameChar(d, s[0], p[1]) && Match(d, p[2..], s[1..])
    else s != "" && SameChar(d, s[0], p[0]) && Match(d, p[1..], s[1..])
  }

  ghost predicate MatchFrom(d: Dialect, p: string, s: string, k: int)
    requires p != ""
    decreases |p|, 0
  {
    0 <= k <= |s| && Match(d, p[1..], s[k..])
  }

  // ---------- escaping

  /** `s.replace(c, to)` for a single character. */
  function Replace(s: string, c: char, to: string): string {
    if s == "" then "" else (if s[0] == c then to else [s[0]]) + Replace(s[1..], c, to)
  }

  /** The source's escape: backslash, then the two special characters, one replacement each. */
  function Escape(d: Dialect, t: string): string {
    Replace(Replace(Replace(t, '\\', "\\\\"), d.star, ['\\', d.star]), d.one, ['\\', d.one])
  }

  /** One character escaped. */
  function EscapeChar(d: Dialect, c: char): string {
    if c == '\\' || c == d.star || c == d.one then ['\\', c] else [c]
  }

  function EscapeEach(d: Dialect, t: string): string {
    if t == "" then "" else EscapeChar(d, t[0]) + EscapeEach(d, t[1..])
  }

  lemma {:induction false} ReplaceConcat(a: string, b: string, c: char, to: string)
    ensures Replace(a + b, c, to) == Replace(a, c, to) + Replace(b, c, to)
    decreases |a|
  {
    if a == "" {
      assert a + b == b;
    } else {
      ReplaceConcat(a[1..], b, c, to);
      var first, rest, more := if a[0] == c then to else [a[0]], Replace(a[1..], c, to), Replace(b, c, to);
      assert (a + b)[1..] == a[1..] + b && (a + b)[0] == a[0];
      assert Replace(a + b, c, to) == first + (rest + more) && Replace(a, c, to) == first + rest;
    }
  }

  lemma ReplaceOne(x: char, c: char, to: string)
    ensures Replace([x], c, to) == if x == c then to else [x]
  {
    assert [x][1..] == "";
  }

  lemma ReplaceTwo(x: char, y: char, c: char, to: string)
    ensures Replace([x, y], c, to) == (if x == c then to else [x]) + (if y == c then to else [y])
  {
    assert [x, y] == [x] + [y];
    ReplaceConcat([x], [y], c, to);
    ReplaceOne(x, c, to);
    ReplaceOne(y, c, to);
  }

  lemma EscapeSingle(d: Dialect, c: char)
    requires DialectOk(d)
    ensures Escape(d, [c]) == EscapeChar(d, c)
  {
    ReplaceOne(c, '\\', "\\\\");
    if c == '\\' {
      ReplaceTwo('\\', '\\', d.star, ['\\', d.star]);
      ReplaceTwo('\\', '\\', d.one, ['\\', d.one]);
    } else {
      ReplaceOne(c, d.star, ['\\', d.star]);
      if c == d.star { ReplaceTwo('\\', c, d.one, ['\\', d.one]); } else { ReplaceOne(c, d.one, ['\\', d.one]); }
    }
  }

  /** Three passes escape exactly as one pass does: no pass touches what an earlier one added. */
  lemma {:induction false} EscapeOnePass(d: Dialect, t: string)
    requires DialectOk(d)
    ensures Escape(d, t) == EscapeEach(d, t)
    decreases |t|
  {
    if t == "" {
    } else {
      EscapeOnePass(d, t[1..]);
      EscapeSingle(d, t[0]);
      var a, b := Replace([t[0]], '\\', "\\\\"), Replace(t[1..], '\\', "\\\\");
      assert t == [t[0]] + t[1..];
      ReplaceConcat([t[0]], t[1..], '\\', "\\\\");
      ReplaceConcat(a, b, d.star, ['\\', d.star]);
      ReplaceConcat(Replace(a, d.star, ['\\', d.star]), Replace(b, d.star, ['\\', d.star]), d.one, ['\\', d.one]);
    }
  }

  // ---------- escaped text matches itself and nothing else

  lemma EscapedHead(d: Dialect, c: char, p: string, s: string)
    requires DialectOk(d)
    ensures Match(d, EscapeChar(d, c) + p, s) <==> s != "" && SameChar(d, s[0], c) && Match(d, p, s[1..])
  {
    var q := EscapeChar(d, c) + p;
    if |EscapeChar(d, c)| == 2 {
      assert q[0] == '\\' && q[1] == c && q[2..] == p;
    } else {
      assert q[0] == c && q[1..] == p;
    }
  }

  /** An escaped text at the front of a pattern matches exactly that text. */
  lemma {:induction false} EscapedPrefix(d: Dialect, t: string, p: string, s: string)
    requires DialectOk(d)
    ensures Match(d, EscapeEach(d, t) + p, s) <==>
            |t| <= |s| && Norm(d, s[..|t|]) == Norm(d, t) && Match(d, p, s[|t|..])
    decreases |t|
  {
    if t == "" {
      assert EscapeEach(d, t) + p == p && s[|t|..] == s && s[..|t|] == t;
    } else {
      var rest := EscapeEach(d, t[1..]) + p;
      assert EscapeEach(d, t) + p == EscapeChar(d, t[0]) + rest;
      EscapedHead(d, t[0], rest, s);
      if s != "" {
        EscapedPrefix(d, t[1..], p, s[1..]);
        if |t| <= |s| {
          assert s[1..][|t[1..]|..] == s[|t|..] && s[1..][..|t[1..]|] == s[..|t|][1..];
          NormSplit(d, s[..|t|], t);
        }
      }
    }
  }

  lemma NormSplit(d: Dialect, a: string, b: string)
    requires |a| == |b| > 0
    ensures Norm(d, a) == Norm(d, b) <==> SameChar(d, a[0], b[0]) && Norm(d, a[1..]) == Norm(d, b[1..])
  {
    assert Norm(d, a)[1..] == Norm(d, a[1..]) && Norm(d, b)[1..] == Norm(d, b[1..]);
    if SameChar(d, a[0], b[0]) && Norm(d, a[1..]) == Norm(d, b[1..]) {
      assert Norm(d, a) == [Norm(d, a)[0]] + Norm(d, a)[1..];
      assert Norm(d, b) == [Norm(d, b)[0]] + Norm(d, b)[1..];
    }
  }

  lemma StarMatches(d: Dialect, s: string)
    ensures Match(d, [d.star], s)
  {
    assert [d.star][1..] == "" && s[|s|..] == "";
    assert MatchFrom(d, [d.star], s, |s|);
  }

  /** A match of a leading star takes some prefix. */
  lemma StarSplit(d: Dialect, p: string, s: string) returns (k: nat)
    requires p != "" && p[0] == d.star && Match(d, p, s)
    ensures MatchFrom(d, p, s, k)
  {
    k :| MatchFrom(d, p, s, k);
  }

  lemma NormSlice(d: Dialect, s: string, i: nat, j: nat)
    requires i <= j <= |s|
    ensures Norm(d, s[i..j]) == Norm(d, s)[i..j]
  {
  }

  /** `esc(t)*` matches the strings that start with `t`. */
  lemma MatchesStart(d: Dialect, t: string, s: string)
    requires DialectOk(d)
    ensures Match(d, Escape(d, t) + [d.star], s) <==> StartsWith(Norm(d, s), Norm(d, t))
  {
    EscapeOnePass(d, t);
    EscapedPrefix(d, t, [d.star], s);
    if |t| <= |s| {
      StarMatches(d, s[|t|..]);
      NormSlice(d, s, 0, |t|);
    }
  }

  /** `*esc(t)` matches the strings that end with `t`. */
  lemma MatchesEnd(d: Dialect, t: string, s: string)
    requires DialectOk(d)
    ensures Match(d, [d.star] + Escape(d, t), s) <==> EndsWith(Norm(d, s), Norm(d, t))
  {
    EscapeOnePass(d, t);
    var e := EscapeEach(d, t);
    var p := [d.star] + e;
    assert p[1..] == e && e == e + "";
    forall k | 0 <= k <= |s|
      ensures Match(d, e, s[k..]) <==> k == |s| - |t| && Norm(d, s[k..]) == Norm(d, t)
    {
      EscapedPrefix(d, t, "", s[k..]);
      if |t| == |s| - k { assert s[k..][..|t|] == s[k..]; }
    }
    if |t| <= |s| {
      NormSlice(d, s, |s| - |t|, |s|);
      assert s[|s| - |t|..] == s[|s| - |t|..|s|] && Norm(d, s)[|s| - |t|..] == Norm(d, s)[|s| - |t|..|s|];
      assert MatchFrom(d, p, s, |s| - |t|) <==> EndsWith(Norm(d, s), Norm(d, t));
    }
  }

  /** `*esc(t)*` matches the strings that contain `t`. */
  lemma MatchesInfix(d: Dialect, t: string, s: string)
    requires DialectOk(d)
    ensures Match(d, [d.star] + Escape(d, t) + [d.star], s) <==> Infix(Norm(d, t), Norm(d, s))
  {
    EscapeOnePass(d, t);
    var e := EscapeEach(d, t) + [d.star];
    var p := [d.star] + Escape(d, t) + [d.star];
    assert p[0] == d.star && p[1..] == e;
    forall k | 0 <= k <= |s|
      ensures MatchFrom(d, p, s, k) <==> OccursAt(Norm(d, t), Norm(d, s), k)
    {
      EscapedPrefix(d, t, [d.star], s[k..]);
      if |t| <= |s| - k {
        StarMatches(d, s[k..][|t|..]);
        assert s[k..][..|t|] == s[k..k + |t|];
        NormSlice(d, s, k, k + |t|);
      }
    }
    if Infix(Norm(d, t), Norm(d, s)) {
      var k :| 0 <= k <= |Norm(d, s)| && OccursAt(Norm(d, t), Norm(d, s), k);
      assert MatchFrom(d, p, s, k);
    }
    if Match(d, p, s) {
      var k := StarSplit(d, p, s);
      assert OccursAt(Norm(d, t), Norm(d, s), k);
    }
  }

  /** Without the escape the pattern is wrong: `***` matches everything. */
  lemma UnescapedStar()
    ensures Match(WILDCARD, "*" + "*" + "*", "a") && !Infix("*", "a")
  {
    var p := "*" + "*" + "*";
    assert p == "***" && p[1..] == "**" && p[1..][1..] == "*";
    StarMatches(WILDCARD, "a");
    assert "a"[0..] == "a";
    assert MatchFrom(WILDCARD, p[1..], "a", 0);
    assert MatchFrom(WILDCARD, p, "a", 0);
    assert "a"[0..1] == "a";
    forall i ensures !OccursAt("*", "a", i) { }
  }
}
