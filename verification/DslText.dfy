/** Variable references inside the text of a canvas description: `{id@name}` with any number of
    braces and inner blanks, found left to right and rewritten one by one. */
module DslText {
  import opened MetaValues

  datatype Class = OpenBrace | Blank | IdChar | VarChar | CloseBrace

  predicate AlphaNum(c: char) {
    'a' <= c <= 'z' || 'A' <= c <= 'Z' || '0' <= c <= '9'
  }

  /** What `\s` matches in Python text: the white space of Unicode. */
  predicate Space(c: char) {
    var n := c as int;
    9 <= n <= 13 || 28 <= n <= 32 || n in {0x85, 0xA0, 0x1680, 0x2028, 0x2029, 0x202F, 0x205F, 0x3000}
    || 0x2000 <= n <= 0x200A
  }

  predicate InClass(cl: Class, c: char) {
    match cl
    case OpenBrace => c == '{'
    case Blank => Space(c)
    case IdChar => AlphaNum(c) || c in ":_-"
    case VarChar => AlphaNum(c) || c in "_.-"
    case CloseBrace => c == '}'
  }

  ghost predicate AllIn(cl: Class, s: string) {
    forall i :: 0 <= i < |s| ==> InClass(cl, s[i])
  }

  /** Length of the longest prefix of one class. */
  function Span(cl: Class, s: string): (n: nat)
    ensures n <= |s| && (forall i :: 0 <= i < n ==> InClass(cl, s[i])) && (n < |s| ==> !InClass(cl, s[n]))
  {
    if s == "" || !InClass(cl, s[0]) then 0 else 1 + Span(cl, s[1..])
  }

  /** Which classes a character cannot share. */
  lemma Apart(c: char)
    ensures InClass(OpenBrace, c) <==> c == '{'
    ensures InClass(CloseBrace, c) <==> c == '}'
    ensures InClass(IdChar, c) ==> !InClass(Blank, c) && c != '{' && c != '@'
    ensures InClass(Blank, c) ==> !InClass(VarChar, c) && c != '{'
    ensures InClass(VarChar, c) ==> c != '{' && c != '}'
    ensures c == '}' ==> !InClass(Blank, c)
  {
  }

  /** One reference, cut where the pattern's groups cut it. */
  datatype Ref = Ref(braces: string, gap: string, id: string, name: string, gap': string, close: string)

  function Spell(r: Ref): string {
    r.braces + r.gap + r.id + "@" + r.name + r.gap' + r.close
  }

  /** The parts have the shape the pattern asks for. */
  ghost predicate RefOk(r: Ref) {
    && r.braces != "" && AllIn(OpenBrace, r.braces) && AllIn(Blank, r.gap)
    && r.id != "" && AllIn(IdChar, r.id) && r.name != "" && AllIn(VarChar, r.name)
    && AllIn(Blank, r.gap') && r.close != "" && AllIn(CloseBrace, r.close)
  }

  /** End positions of the pattern's six variable groups; the "@" stands at `c`. */
  datatype Cuts = Cuts(a: nat, b: nat, c: nat, d: nat, e: nat, f: nat)

  ghost predicate Range(cl: Class, s: string, i: nat, j: nat)
    requires j <= |s|
  {
    forall k :: i <= k < j ==> InClass(cl, s[k])
  }

  /** The cuts fit the start of `s`, and no further closing brace follows. */
  ghost predicate Fits(s: string, k: Cuts) {
    && 0 < k.a <= k.b < k.c && k.c + 1 < k.d <= k.e < k.f <= |s| && s[k.c] == '@'
    && Range(OpenBrace, s, 0, k.a) && Range(Blank, s, k.a, k.b) && Range(IdChar, s, k.b, k.c)
    && Range(VarChar, s, k.c + 1, k.d) && Range(Blank, s, k.d, k.e) && Range(CloseBrace, s, k.e, k.f)
    && (k.f < |s| ==> s[k.f] != '}')
  }

  function SpanFrom(cl: Class, s: string, i: nat): (j: nat)
    requires i <= |s|
    ensures i <= j <= |s| && Range(cl, s, i, j) && (j < |s| ==> !InClass(cl, s[j]))
  {
    var n := Span(cl, s[i..]);
    assert forall k :: i <= k < i + n ==> s[k] == s[i..][k - i];
    i + n
  }

  /** Greedy matching of the pattern at the start of `s`, group by group. */
  function CutAt(s: string): (r: Option<Cuts>)
    ensures r.Some? ==> Fits(s, r.value)
  {
    hide InClass, Span;
    var a := SpanFrom(OpenBrace, s, 0);
    var b := SpanFrom(Blank, s, a);
    var c := SpanFrom(IdChar, s, b);
    if a == 0 || c == b || c == |s| || s[c] != '@' then None
    else
      var d := SpanFrom(VarChar, s, c + 1);
      var e := SpanFrom(Blank, s, d);
      var f := SpanFrom(CloseBrace, s, e);
      assert f < |s| ==> s[f] != '}' by { Apart('}'); }
      if d == c + 1 || f == e then None else Some(Cuts(a, b, c, d, e, f))
  }

  lemma {:induction false} SpanFromIs(cl: Class, s: string, i: nat, j: nat)
    requires i <= j <= |s| && Range(cl, s, i, j) && (j < |s| ==> !InClass(cl, s[j]))
    ensures SpanFrom(cl, s, i) == j
  {
    hide InClass, SpanFrom;
    var k := SpanFrom(cl, s, i);
  }

  /** The groups' classes leave no choice: cuts that fit are the ones greedy matching finds. */
  lemma CutUnique(s: string, k: Cuts)
    requires Fits(s, k)
    ensures CutAt(s) == Some(k)
  {
    hide InClass, SpanFrom;
    Apart(s[k.a]);
    Apart(s[k.b]);
    Apart('@');
    Apart(s[k.d]);
    Apart(s[k.e]);
    if k.f < |s| { Apart(s[k.f]); }
    SpanFromIs(OpenBrace, s, 0, k.a);
    SpanFromIs(Blank, s, k.a, k.b);
    SpanFromIs(IdChar, s, k.b, k.c);
    SpanFromIs(VarChar, s, k.c + 1, k.d);
    SpanFromIs(Blank, s, k.d, k.e);
    SpanFromIs(CloseBrace, s, k.e, k.f);
  }

  function RefAt(s: string, k: Cuts): Ref
    requires Fits(s, k)
  {
    Ref(s[..k.a], s[k.a..k.b], s[k.b..k.c], s[k.c + 1..k.d], s[k.d..k.e], s[k.e..k.f])
  }

  function MatchRef(s: string): Option<Ref> {
    match CutAt(s) case None => None case Some(k) => Some(RefAt(s, k))
  }

  lemma RefAtOk(s: string, k: Cuts)
    requires Fits(s, k)
    ensures RefOk(RefAt(s, k)) && Spell(RefAt(s, k)) == s[..k.f]
  {
    hide InClass;
    CutSix(s, k.a, k.b, k.c, k.d, k.e, k.f);
  }

  /** What a match says about the text. */
  lemma MatchParts(s: string)
    requires MatchRef(s).Some?
    ensures var r := MatchRef(s).value;
            RefOk(r) && |Spell(r)| <= |s| && s == Spell(r) + s[|Spell(r)|..]
            && (|Spell(r)| < |s| ==> s[|Spell(r)|] != '}')
  {
    hide CutAt, RefAt, Spell, RefOk;
    RefAtOk(s, CutAt(s).value);
  }

  lemma CutSix(s: string, a: nat, b: nat, c: nat, d: nat, e: nat, f: nat)
    requires a <= b <= c < c + 1 <= d <= e <= f <= |s| && s[c] == '@'
    ensures s[..f] == s[..a] + s[a..b] + s[b..c] + "@" + s[c + 1..d] + s[d..e] + s[e..f]
  {
    assert s[..b] == s[..a] + s[a..b];
    assert s[..c] == s[..b] + s[b..c];
    assert s[..c + 1] == s[..c] + "@";
    assert s[..d] == s[..c + 1] + s[c + 1..d];
    assert s[..e] == s[..d] + s[d..e];
    assert s[..f] == s[..e] + s[e..f];
  }

  function CutsOf(r: Ref): Cuts {
    var a := |r.braces|;
    var b := a + |r.gap|;
    var c := b + |r.id|;
    var d := c + 1 + |r.name|;
    var e := d + |r.gap'|;
    Cuts(a, b, c, d, e, e + |r.close|)
  }

  /** Well-shaped parts in front of anything but another closing brace are matched as they are. */
  lemma MatchSpelled(r: Ref, rest: string)
    requires RefOk(r) && (rest == "" || rest[0] != '}')
    ensures MatchRef(Spell(r) + rest) == Some(r)
  {
    hide InClass, CutAt, Fits;
    var s, k := Spell(r) + rest, CutsOf(r);
    SpelledFits(r, rest);
    CutUnique(s, k);
    SpelledParts(r, rest);
  }

  lemma SpelledParts(r: Ref, rest: string)
    ensures var s, k := Spell(r) + rest, CutsOf(r);
            k.f <= |s| && s[..k.a] == r.braces && s[k.a..k.b] == r.gap && s[k.b..k.c] == r.id && s[k.c] == '@'
            && s[k.c + 1..k.d] == r.name && s[k.d..k.e] == r.gap' && s[k.e..k.f] == r.close && s[k.f..] == rest
  {
    var p0 := r.braces;
    var p1 := p0 + r.gap;
    var p2 := p1 + r.id;
    var p3 := p2 + "@";
    var p4 := p3 + r.name;
    var p5 := p4 + r.gap';
    var p6 := p5 + r.close;
    var s := Spell(r) + rest;
    assert s == p6 + rest;
    assert s[..|p5|] == p5 && s[|p5|..|p6|] == r.close;
    assert s[..|p4|] == p5[..|p4|] == p4 && s[|p4|..|p5|] == p5[|p4|..] == r.gap';
    assert s[..|p3|] == p4[..|p3|] == p3 && s[|p3|..|p4|] == p4[|p3|..] == r.name;
    assert s[..|p2|] == p3[..|p2|] == p2 && s[|p2|] == p3[|p2|] == '@';
    assert s[..|p1|] == p2[..|p1|] == p1 && s[|p1|..|p2|] == p2[|p1|..] == r.id;
    assert s[..|p0|] == p1[..|p0|] == p0 && s[|p0|..|p1|] == p1[|p0|..] == r.gap;
  }

  lemma SliceRange(cl: Class, s: string, i: nat, j: nat)
    requires i <= j <= |s| && AllIn(cl, s[i..j])
    ensures Range(cl, s, i, j)
  {
    hide InClass;
    forall k | i <= k < j ensures InClass(cl, s[k]) { assert s[k] == s[i..j][k - i]; }
  }

  lemma SpelledFits(r: Ref, rest: string)
    requires RefOk(r) && (rest == "" || rest[0] != '}')
    ensures Fits(Spell(r) + rest, CutsOf(r))
  {
    hide InClass;
    var s, k := Spell(r) + rest, CutsOf(r);
    SpelledParts(r, rest);
    hide Spell, AllIn, Range;
    assert s[0..k.a] == s[..k.a];
    SliceRange(OpenBrace, s, 0, k.a);
    SliceRange(Blank, s, k.a, k.b);
    SliceRange(IdChar, s, k.b, k.c);
    SliceRange(VarChar, s, k.c + 1, k.d);
    SliceRange(Blank, s, k.d, k.e);
    SliceRange(CloseBrace, s, k.e, k.f);
    if k.f < |s| { assert s[k.f] == s[k.f..][0]; }
  }

  // ---------- scanning a whole text

  datatype Segment = Chr(c: char) | Found(ref: Ref)

  function SpellSegment(g: Segment): string {
    match g case Chr(c) => [c] case Found(r) => Spell(r)
  }

  /** Leftmost matches first, other characters one by one. */
  function Scan(s: string): (gs: seq<Segment>)
    decreases |s|
  {
    if s == "" then []
    else match MatchRef(s)
      case Some(r) => MatchParts(s); [Found(r)] + Scan(s[|Spell(r)|..])
      case None => [Chr(s[0])] + Scan(s[1..])
  }

  function Flat(gs: seq<Segment>): string {
    if gs == [] then "" else SpellSegment(gs[0]) + Flat(gs[1..])
  }

  type IdMap = map<string, string>

  function Get(m: IdMap, x: string): string {
    if x in m then m[x] else x
  }

  function MapRef(m: IdMap, r: Ref): Ref { r.(id := Get(m, r.id)) }

  function MapSegment(m: IdMap, g: Segment): Segment {
    match g case Chr(_) => g case Found(r) => Found(MapRef(m, r))
  }

  function MapSegments(m: IdMap, gs: seq<Segment>): (r: seq<Segment>)
    ensures |r| == |gs| && forall i :: 0 <= i < |gs| ==> r[i] == MapSegment(m, gs[i])
  {
    seq(|gs|, i requires 0 <= i < |gs| => MapSegment(m, gs[i]))
  }

  /** The pattern substitution. */
  function Substitute(m: IdMap, s: string): string {
    Flat(MapSegments(m, Scan(s)))
  }

  lemma ScanFound(s: string, r: Ref)
    requires s != "" && MatchRef(s) == Some(r)
    ensures |Spell(r)| <= |s| && s == Spell(r) + s[|Spell(r)|..]
    ensures Scan(s) == [Found(r)] + Scan(s[|Spell(r)|..])
  {
    hide MatchRef, Spell;
    MatchParts(s);
  }

  lemma ScanChr(s: string)
    requires s != "" && MatchRef(s).None?
    ensures Scan(s) == [Chr(s[0])] + Scan(s[1..])
  {
    hide MatchRef, Spell;
  }

  lemma FlatCons(g: Segment, gs: seq<Segment>)
    ensures Flat([g] + gs) == SpellSegment(g) + Flat(gs)
  {
    hide SpellSegment;
    assert ([g] + gs)[1..] == gs;
  }

  lemma MapCons(m: IdMap, g: Segment, gs: seq<Segment>)
    ensures MapSegments(m, [g] + gs) == [MapSegment(m, g)] + MapSegments(m, gs)
  {
    hide MapSegment;
  }

  lemma {:induction false} FlatScan(s: string)
    ensures Flat(Scan(s)) == s
    decreases |s|
  {
    hide MatchRef, Spell, Scan, Flat;
    if s == "" {
      NothingScanned();
    } else {
      match MatchRef(s) {
        case Some(r) =>
          ScanFound(s, r);
          NotEmpty(s, r);
          FlatScan(s[|Spell(r)|..]);
          FlatCons(Found(r), Scan(s[|Spell(r)|..]));
        case None =>
          ScanChr(s);
          FlatScan(s[1..]);
          FlatCons(Chr(s[0]), Scan(s[1..]));
          assert s == [s[0]] + s[1..];
      }
    }
  }

  lemma NothingScanned()
    ensures Scan("") == [] && Flat([]) == ""
  {
  }

  lemma NotEmpty(s: string, r: Ref)
    requires MatchRef(s) == Some(r)
    ensures |Spell(r)| > 0
  {
  }

  /** A map that moves nothing leaves every text alone. */
  lemma SubstituteIdentity(m: IdMap, s: string)
    requires forall k :: k in m ==> m[k] == k
    ensures Substitute(m, s) == s
  {
    hide Scan, Flat;
    assert MapSegments(m, Scan(s)) == Scan(s);
    FlatScan(s);
  }

  lemma SubstituteFound(m: IdMap, s: string, r: Ref)
    requires s != "" && MatchRef(s) == Some(r)
    ensures |Spell(r)| <= |s| && Substitute(m, s) == Spell(MapRef(m, r)) + Substitute(m, s[|Spell(r)|..])
  {
    hide MatchRef, Spell, Scan, Flat, MapRef, MapSegments;
    ScanFound(s, r);
    MapCons(m, Found(r), Scan(s[|Spell(r)|..]));
    FlatCons(Found(MapRef(m, r)), MapSegments(m, Scan(s[|Spell(r)|..])));
  }

  lemma SubstituteChr(m: IdMap, s: string)
    requires s != "" && MatchRef(s).None?
    ensures Substitute(m, s) == [s[0]] + Substitute(m, s[1..])
  {
    hide MatchRef, Spell, Scan, Flat, MapSegments;
    ScanChr(s);
    MapCons(m, Chr(s[0]), Scan(s[1..]));
    FlatCons(Chr(s[0]), MapSegments(m, Scan(s[1..])));
  }

  /** Text without an opening brace holds no reference. */
  lemma {:induction false} SubstitutePlain(m: IdMap, s: string)
    requires '{' !in s
    ensures Substitute(m, s) == s
    decreases |s|
  {
    if s == "" {
    } else {
      assert Span(OpenBrace, s) == 0;
      SubstituteChr(m, s);
      SubstitutePlain(m, s[1..]);
    }
  }

  // ---------- the references of the new text are the images of the old ones

  /** Mapped ids keep to the characters of ids. */
  ghost predicate IdLike(m: IdMap) {
    forall k :: k in m && k != "" && AllIn(IdChar, k) ==> m[k] != "" && AllIn(IdChar, m[k])
  }

  lemma MapRefOk(m: IdMap, r: Ref)
    requires IdLike(m) && RefOk(r)
    ensures RefOk(MapRef(m, r))
  {
  }

  /** The text up to the first reference is untouched, and a reference still starts there. */
  lemma {:induction false} Untouched(m: IdMap, s: string) returns (n: nat)
    ensures var t := Substitute(m, s);
            n <= |s| && n <= |t| && s[..n] == t[..n]
            && ((n == |s| && n == |t|) || (n < |s| && n < |t| && s[n] == '{' && t[n] == '{' && MatchRef(s[n..]).Some?))
    decreases |s|
  {
    hide MatchRef, Substitute, Scan;
    if s == "" {
      NothingThere(m);
      n := 0;
    } else {
      match MatchRef(s) {
        case Some(r) =>
          BothBraces(m, s, r);
          assert s[0..] == s;
          n := 0;
        case None =>
          var k := Untouched(m, s[1..]);
          SubstituteChr(m, s);
          n := k + 1;
          assert s[n..] == s[1..][k..];
          assert s[..n] == [s[0]] + s[1..][..k];
      }
    }
  }

  lemma NothingThere(m: IdMap)
    ensures Substitute(m, "") == ""
  {
    NothingScanned();
    assert MapSegments(m, []) == [];
  }

  lemma BothBraces(m: IdMap, s: string, r: Ref)
    requires s != "" && MatchRef(s) == Some(r)
    ensures Substitute(m, s) != "" && s[0] == '{' && Substitute(m, s)[0] == '{'
  {
    hide MatchRef, Substitute, Scan, InClass;
    MatchParts(s);
    SubstituteFound(m, s, r);
    Apart(r.braces[0]);
    SpellHead(r);
    SpellHead(MapRef(m, r));
    assert InClass(OpenBrace, r.braces[0]);
  }

  lemma SpellHead(r: Ref)
    requires r.braces != ""
    ensures Spell(r) != "" && Spell(r)[0] == r.braces[0]
  {
  }

  /** One more brace in front of a reference is part of it. */
  lemma MoreBraces(s: string)
    requires MatchRef(s).Some?
    ensures MatchRef("{" + s).Some?
  {
    hide InClass, CutAt;
    var k, t := CutAt(s).value, "{" + s;
    Apart('{');
    assert forall i :: 0 < i < |t| ==> t[i] == s[i - 1];
    CutUnique(t, Cuts(k.a + 1, k.b + 1, k.c + 1, k.d + 1, k.e + 1, k.f + 1));
  }

  lemma {:induction false} AllBraces(s: string, n: nat)
    requires n <= |s| && (forall i :: 0 <= i < n ==> s[i] == '{') && MatchRef(s[n..]).Some?
    ensures MatchRef(s).Some?
    decreases n
  {
    hide MatchRef;
    if n == 0 {
      assert s[0..] == s;
    } else {
      assert s[n - 1..] == "{" + s[n..];
      MoreBraces(s[n..]);
      AllBraces(s, n - 1);
    }
  }

  /** After the leading braces a match stops at the next brace, so two texts that agree that
      far match alike. */
  lemma SameMatch(a: string, b: string, n: nat)
    requires n <= |a| && n <= |b| && a[..n] == b[..n] && MatchRef(a).Some?
    requires (n == |a| && n == |b|) || (n < |a| && n < |b| && a[n] == '{' && b[n] == '{')
    requires exists i :: 0 <= i < n && a[i] != '{'
    ensures MatchRef(b).Some?
  {
    hide InClass, CutAt;
    var k := CutAt(a).value;
    forall j | 0 <= j < n ensures a[j] == b[j] { assert a[..n][j] == b[..n][j]; }
    Apart('{');
    assert k.f <= n by { if n < k.f { BraceInside(a, k, n); } }
    CutUnique(b, k);
  }

  /** Inside a match, braces only occur at the front. */
  lemma BraceInside(s: string, k: Cuts, n: nat)
    requires Fits(s, k) && n < k.f && s[n] == '{'
    ensures forall i :: 0 <= i < n ==> s[i] == '{'
  {
    hide InClass;
    Apart('{');
    forall i | 0 <= i < n ensures s[i] == '{' { if n < k.a { assert InClass(OpenBrace, s[i]); Apart(s[i]); } }
  }

  lemma OnlyBraces(s: string)
    requires forall i :: 0 <= i < |s| ==> s[i] == '{'
    ensures MatchRef(s).None?
  {
  }

  /** What was no reference before is none after. */
  lemma NoNewMatch(m: IdMap, s: string)
    requires s != "" && MatchRef(s).None?
    ensures MatchRef([s[0]] + Substitute(m, s[1..])).None?
  {
    hide MatchRef, Substitute;
    var t := [s[0]] + Substitute(m, s[1..]);
    if MatchRef(t).Some? {
      var k := Untouched(m, s[1..]);
      var n := k + 1;
      assert s == [s[0]] + s[1..];
      assert t[..n] == [s[0]] + Substitute(m, s[1..])[..k] == [s[0]] + s[1..][..k] == s[..n];
      assert s[n..] == s[1..][k..];
      if forall i :: 0 <= i < n ==> t[i] == '{' {
        forall i | 0 <= i < n ensures s[i] == '{' { assert s[..n][i] == t[..n][i]; }
        if n == |t| { OnlyBraces(t); } else { AllBraces(s, n); }
      } else {
        SameMatch(t, s, n);
      }
    }
  }

  /** The rewritten text, scanned again, has the same segments with mapped ids. */
  lemma {:induction false} ScanSubstituted(m: IdMap, s: string)
    requires IdLike(m)
    ensures Scan(Substitute(m, s)) == MapSegments(m, Scan(s))
    decreases |s|
  {
    hide MatchRef, Substitute, Scan, Spell, MapSegments, RefOk, IdLike;
    if s == "" {
      NothingThere(m);
      NothingScanned();
      NothingMapped(m);
    } else {
      match MatchRef(s) {
        case Some(r) =>
          MatchParts(s);
          NotEmpty(s, r);
          SubstituteFound(m, s, r);
          ScanFound(s, r);
          var rest, r' := s[|Spell(r)|..], MapRef(m, r);
          ScanSubstituted(m, rest);
          MapRefOk(m, r);
          FirstKept(m, rest);
          assert rest != "" ==> rest[0] == s[|Spell(r)|];
          MatchSpelled(r', Substitute(m, rest));
          ScanSpelled(r', Substitute(m, rest));
          MapCons(m, Found(r), Scan(rest));
        case None =>
          SubstituteChr(m, s);
          NoNewMatch(m, s);
          ScanSubstituted(m, s[1..]);
          ScanChr(s);
          ScanChr([s[0]] + Substitute(m, s[1..]));
          assert ([s[0]] + Substitute(m, s[1..]))[1..] == Substitute(m, s[1..]);
          MapCons(m, Chr(s[0]), Scan(s[1..]));
      }
    }
  }

  lemma NothingMapped(m: IdMap)
    ensures MapSegments(m, []) == []
  {
  }

  lemma ScanSpelled(r: Ref, rest: string)
    requires MatchRef(Spell(r) + rest) == Some(r)
    ensures Scan(Spell(r) + rest) == [Found(r)] + Scan(rest)
  {
    hide MatchRef, Scan;
    var s := Spell(r) + rest;
    NotEmpty(s, r);
    ScanFound(s, r);
    assert s[|Spell(r)|..] == rest;
  }

  /** Substitution keeps the first character. */
  lemma FirstKept(m: IdMap, s: string)
    ensures s == "" <==> Substitute(m, s) == ""
    ensures s != "" ==> Substitute(m, s)[0] == s[0]
  {
    hide MatchRef, Substitute;
    var n := Untouched(m, s);
    if s != "" && n > 0 { assert s[..n][0] == Substitute(m, s)[..n][0]; }
  }

  // ---------- one string of the description

  /** `rewrite_variable_refs`: a bare component id is mapped, other text has its references
      mapped. */
  function RewriteText(m: IdMap, s: string): string {
    if s in m then m[s] else Substitute(m, s)
  }

  function RefsOf(gs: seq<Segment>): seq<string> {
    if gs == [] then [] else (match gs[0] case Chr(_) => [] case Found(r) => [r.id]) + RefsOf(gs[1..])
  }

  /** The component ids a text refers to, left to right. */
  function Refs(s: string): seq<string> { RefsOf(Scan(s)) }

  function GetEach(m: IdMap, ids: seq<string>): (r: seq<string>)
    ensures |r| == |ids| && forall i :: 0 <= i < |ids| ==> r[i] == Get(m, ids[i])
  {
    seq(|ids|, i requires 0 <= i < |ids| => Get(m, ids[i]))
  }

  lemma {:induction false} RefsMapped(m: IdMap, gs: seq<Segment>)
    ensures RefsOf(MapSegments(m, gs)) == GetEach(m, RefsOf(gs))
    decreases |gs|
  {
    if gs == [] {
    } else {
      RefsMapped(m, gs[1..]);
      assert MapSegments(m, gs)[1..] == MapSegments(m, gs[1..]);
    }
  }

  /** References of the rewritten text are the images of the old references, in order. */
  lemma ReferencesFollow(m: IdMap, s: string)
    requires IdLike(m) && s !in m
    ensures Refs(RewriteText(m, s)) == GetEach(m, Refs(s))
  {
    ScanSubstituted(m, s);
    RefsMapped(m, Scan(s));
  }
}
