/** Search conditions as SQL-92 writes them (section 8.12): OR over AND over NOT over
    parenthesised conditions and predicates, with three truth values. */
module SqlCondition {

  // ---------- truth values

  datatype Truth = False | Unknown | True

  function Not3(a: Truth): Truth {
    match a case True => False case False => True case Unknown => Unknown
  }

  function And3(a: Truth, b: Truth): Truth {
    if a == False || b == False then False else if a == Unknown || b == Unknown then Unknown else True
  }

  function Or3(a: Truth, b: Truth): Truth {
    if a == True || b == True then True else if a == Unknown || b == Unknown then Unknown else False
  }

  function All3(s: seq<Truth>): (r: Truth)
    ensures r == True <==> forall i :: 0 <= i < |s| ==> s[i] == True
    ensures r == False <==> exists i :: 0 <= i < |s| && s[i] == False
  {
    if s == [] then True else
    assert s == s[..|s| - 1] + [s[|s| - 1]];
    And3(All3(s[..|s| - 1]), s[|s| - 1])
  }

  function Any3(s: seq<Truth>): (r: Truth)
    ensures r == True <==> exists i :: 0 <= i < |s| && s[i] == True
    ensures r == False <==> forall i :: 0 <= i < |s| ==> s[i] == False
  {
    if s == [] then False else
    assert s == s[..|s| - 1] + [s[|s| - 1]];
    Or3(Any3(s[..|s| - 1]), s[|s| - 1])
  }

  function Not3Each(s: seq<Truth>): (r: seq<Truth>)
    ensures |r| == |s| && forall i :: 0 <= i < |s| ==> r[i] == Not3(s[i])
  {
    seq(|s|, i requires 0 <= i < |s| => Not3(s[i]))
  }

  lemma DeMorgan(s: seq<Truth>)
    ensures All3(Not3Each(s)) == Not3(Any3(s))
  {
    var n := Not3Each(s);
    if Any3(s) == True {
      var i :| 0 <= i < |s| && s[i] == True;
      assert n[i] == False;
    } else if Any3(s) == False {
      assert forall i :: 0 <= i < |n| ==> n[i] == True;
    } else {
      var i :| 0 <= i < |s| && s[i] != False;
      assert n[i] != True;
      forall k | 0 <= k < |n| ensures n[k] != False { assert s[k] != True; }
    }
  }

  // ---------- conditions and their tokens

  datatype Token<A> = Open | Close | OrWord | AndWord | NotWord | Pred(atom: A)

  /** Every level of the grammar is a type of its own, so a tree needs no side conditions
      beyond its lists being non-empty. */
  datatype Condition<A> = Condition(terms: seq<Term<A>>)
  datatype Term<A> = Term(factors: seq<Factor<A>>)
  datatype Factor<A> = Factor(negated: bool, primary: Primary<A>)
  datatype Primary<A> = Leaf(atom: A) | Nested(inner: Condition<A>)

  ghost predicate Filled<A>(c: Condition<A>) {
    c.terms != [] && forall i :: 0 <= i < |c.terms| ==> FilledTerm(c.terms[i])
  }

  ghost predicate FilledTerm<A>(t: Term<A>) {
    t.factors != [] && forall i :: 0 <= i < |t.factors| ==> FilledPrimary(t.factors[i].primary)
  }

  ghost predicate FilledPrimary<A>(p: Primary<A>) {
    p.Nested? ==> Filled(p.inner)
  }

  function Print<A>(c: Condition<A>): seq<Token<A>>
    decreases c, 0
  {
    PrintTerms(c.terms)
  }

  function PrintTerms<A>(ts: seq<Term<A>>): seq<Token<A>>
    decreases ts, 0
  {
    if ts == [] then []
    else if |ts| == 1 then PrintFactors(ts[0].factors)
    else PrintFactors(ts[0].factors) + [OrWord] + PrintTerms(ts[1..])
  }

  function PrintFactors<A>(fs: seq<Factor<A>>): seq<Token<A>>
    decreases fs, 0
  {
    if fs == [] then []
    else if |fs| == 1 then PrintFactor(fs[0])
    else PrintFactor(fs[0]) + [AndWord] + PrintFactors(fs[1..])
  }

  function PrintFactor<A>(f: Factor<A>): seq<Token<A>>
    decreases f, 0
  {
    (if f.negated then [NotWord] else []) + PrintPrimary(f.primary)
  }

  function PrintPrimary<A>(p: Primary<A>): seq<Token<A>>
    decreases p, 0
  {
    match p
    case Leaf(a) => [Pred(a)]
    case Nested(c) => [Open] + Print(c) + [Close]
  }

  // ---------- the parser

  datatype Parsed<A, T> = Fail | Got(value: T, rest: seq<Token<A>>)

  function ParseOr<A>(s: seq<Token<A>>): (r: Parsed<A, seq<Term<A>>>)
    ensures r.Got? ==> |r.rest| < |s|
    decreases |s|, 3
  {
    match ParseAnd(s)
    case Fail => Fail
    case Got(fs, rest) =>
      if rest != [] && rest[0] == OrWord then
        match ParseOr(rest[1..])
        case Fail => Fail
        case Got(ts, rest') => Got([Term(fs)] + ts, rest')
      else Got([Term(fs)], rest)
  }

  function ParseAnd<A>(s: seq<Token<A>>): (r: Parsed<A, seq<Factor<A>>>)
    ensures r.Got? ==> |r.rest| < |s|
    decreases |s|, 2
  {
    match ParseNot(s)
    case Fail => Fail
    case Got(f, rest) =>
      if rest != [] && rest[0] == AndWord then
        match ParseAnd(rest[1..])
        case Fail => Fail
        case Got(fs, rest') => Got([f] + fs, rest')
      else Got([f], rest)
  }

  function ParseNot<A>(s: seq<Token<A>>): (r: Parsed<A, Factor<A>>)
    ensures r.Got? ==> |r.rest| < |s|
    decreases |s|, 1
  {
    if s != [] && s[0] == NotWord then
      match ParsePrimary(s[1..]) case Fail => Fail case Got(p, rest) => Got(Factor(true, p), rest)
    else
      match ParsePrimary(s) case Fail => Fail case Got(p, rest) => Got(Factor(false, p), rest)
  }

  function ParsePrimary<A>(s: seq<Token<A>>): (r: Parsed<A, Primary<A>>)
    ensures r.Got? ==> |r.rest| < |s|
    decreases |s|, 0
  {
    if s == [] then Fail
    else match s[0]
      case Pred(a) => Got(Leaf(a), s[1..])
      case Open =>
        (match ParseOr(s[1..])
         case Fail => Fail
         case Got(ts, rest) => if rest != [] && rest[0] == Close then Got(Nested(Condition(ts)), rest[1..]) else Fail)
      case _ => Fail
  }

  /** A whole token string is one condition. */
  function Parse<A>(s: seq<Token<A>>): (r: Parsed<A, Condition<A>>)
  {
    match ParseOr(s)
    case Fail => Fail
    case Got(ts, rest) => if rest == [] then Got(Condition(ts), []) else Fail
  }

  // ---------- the parser inverts the printer

  /** Nothing that could continue a list at this level follows. */
  ghost predicate Ends<A>(rest: seq<Token<A>>, words: set<Token<A>>) {
    rest == [] || rest[0] !in words
  }

  lemma Rejoin<A>(a: seq<Token<A>>, word: Token<A>, b: seq<Token<A>>, rest: seq<Token<A>>)
    ensures (a + [word] + b) + rest == a + ([word] + (b + rest))
  {
  }

  lemma {:induction false} ParsePrintedPrimary<A>(p: Primary<A>, rest: seq<Token<A>>)
    requires FilledPrimary(p)
    ensures ParsePrimary(PrintPrimary(p) + rest) == Got(p, rest)
    decreases p, 0
  {
    var s := PrintPrimary(p) + rest;
    match p {
      case Leaf(a) => assert s[1..] == rest;
      case Nested(c) =>
        var after := [Close] + rest;
        assert s[1..] == Print(c) + after && after[1..] == rest;
        ParsePrintedTerms(c.terms, after);
    }
  }

  lemma {:induction false} ParsePrintedFactor<A>(f: Factor<A>, rest: seq<Token<A>>)
    requires FilledPrimary(f.primary)
    ensures ParseNot(PrintFactor(f) + rest) == Got(f, rest)
    decreases f, 1
  {
    var s := PrintFactor(f) + rest;
    ParsePrintedPrimary(f.primary, rest);
    if f.negated {
      assert s[1..] == PrintPrimary(f.primary) + rest;
    } else {
      assert s == PrintPrimary(f.primary) + rest;
    }
  }

  lemma {:induction false} ParsePrintedFactors<A>(fs: seq<Factor<A>>, rest: seq<Token<A>>)
    requires fs != [] && (forall i :: 0 <= i < |fs| ==> FilledPrimary(fs[i].primary)) && Ends(rest, {AndWord})
    ensures ParseAnd(PrintFactors(fs) + rest) == Got(fs, rest)
    decreases fs, 2
  {
    hide PrintFactor, ParseNot;
    if |fs| == 1 {
      ParsePrintedFactor(fs[0], rest);
      assert [fs[0]] == fs;
    } else {
      var after := [AndWord] + (PrintFactors(fs[1..]) + rest);
      Rejoin(PrintFactor(fs[0]), AndWord, PrintFactors(fs[1..]), rest);
      ParsePrintedFactor(fs[0], after);
      assert after[1..] == PrintFactors(fs[1..]) + rest;
      ParsePrintedFactors(fs[1..], rest);
      assert [fs[0]] + fs[1..] == fs;
    }
  }

  lemma {:induction false} ParsePrintedTerms<A>(ts: seq<Term<A>>, rest: seq<Token<A>>)
    requires ts != [] && (forall i :: 0 <= i < |ts| ==> FilledTerm(ts[i])) && Ends(rest, {AndWord, OrWord})
    ensures ParseOr(PrintTerms(ts) + rest) == Got(ts, rest)
    decreases ts, 3
  {
    hide PrintFactors, ParseAnd;
    if |ts| == 1 {
      ParsePrintedFactors(ts[0].factors, rest);
      assert [ts[0]] == ts && Term(ts[0].factors) == ts[0];
    } else {
      var after := [OrWord] + (PrintTerms(ts[1..]) + rest);
      Rejoin(PrintFactors(ts[0].factors), OrWord, PrintTerms(ts[1..]), rest);
      ParsePrintedFactors(ts[0].factors, after);
      assert after[1..] == PrintTerms(ts[1..]) + rest;
      ParsePrintedTerms(ts[1..], rest);
      assert [ts[0]] + ts[1..] == ts;
    }
  }

  /** Printing a condition and parsing it gives it back. */
  lemma ParsePrinted<A>(c: Condition<A>)
    requires Filled(c)
    ensures Parse(Print(c)) == Got(c, [])
  {
    assert Print(c) + [] == Print(c);
    ParsePrintedTerms(c.terms, []);
  }

  /** And every token string the parser accepts is the print of what it returns. */
  lemma {:induction false} PrintParsed<A>(s: seq<Token<A>>)
    ensures Parse(s).Got? ==> Filled(Parse(s).value) && Print(Parse(s).value) == s
  {
    PrintParsedOr(s);
    if Parse(s).Got? {
      var ts := ParseOr(s).value;
      assert s == PrintTerms(ts) + [] == PrintTerms(ts);
    }
  }

  lemma {:induction false} PrintParsedOr<A>(s: seq<Token<A>>)
    ensures ParseOr(s).Got? ==> var ts := ParseOr(s).value;
              ts != [] && (forall i :: 0 <= i < |ts| ==> FilledTerm(ts[i])) && s == PrintTerms(ts) + ParseOr(s).rest
    decreases |s|, 3
  {
    hide PrintFactors, ParseAnd;
    PrintParsedAnd(s);
    match ParseAnd(s) {
      case Fail =>
      case Got(fs, rest) =>
        if rest != [] && rest[0] == OrWord {
          PrintParsedOr(rest[1..]);
          match ParseOr(rest[1..]) {
            case Fail =>
            case Got(ts, rest') =>
              var all := [Term(fs)] + ts;
              assert all[1..] == ts && rest == [OrWord] + rest[1..];
              assert PrintTerms(all) == PrintFactors(fs) + [OrWord] + PrintTerms(ts);
              Rejoin(PrintFactors(fs), OrWord, PrintTerms(ts), rest');
          }
        }
    }
  }

  lemma {:induction false} PrintParsedAnd<A>(s: seq<Token<A>>)
    ensures ParseAnd(s).Got? ==> var fs := ParseAnd(s).value;
              fs != [] && (forall i :: 0 <= i < |fs| ==> FilledPrimary(fs[i].primary))
                  && s == PrintFactors(fs) + ParseAnd(s).rest
    decreases |s|, 2
  {
    hide PrintFactor, ParseNot, FilledPrimary;
    PrintParsedNot(s);
    match ParseNot(s) {
      case Fail =>
      case Got(f, rest) =>
        if rest != [] && rest[0] == AndWord {
          PrintParsedAnd(rest[1..]);
          match ParseAnd(rest[1..]) {
            case Fail =>
            case Got(fs, rest') =>
              var all := [f] + fs;
              assert all[1..] == fs && rest == [AndWord] + rest[1..];
              assert PrintFactors(all) == PrintFactor(f) + [AndWord] + PrintFactors(fs);
              Rejoin(PrintFactor(f), AndWord, PrintFactors(fs), rest');
          }
        }
    }
  }

  lemma {:induction false} PrintParsedNot<A>(s: seq<Token<A>>)
    ensures ParseNot(s).Got? ==>
            FilledPrimary(ParseNot(s).value.primary)
            && s == PrintFactor(ParseNot(s).value) + ParseNot(s).rest
    decreases |s|, 1
  {
    if s != [] && s[0] == NotWord {
      PrintParsedPrimary(s[1..]);
      assert s == [NotWord] + s[1..];
    } else {
      PrintParsedPrimary(s);
    }
  }

  lemma {:induction false} PrintParsedPrimary<A>(s: seq<Token<A>>)
    ensures ParsePrimary(s).Got? ==>
            FilledPrimary(ParsePrimary(s).value)
            && s == PrintPrimary(ParsePrimary(s).value) + ParsePrimary(s).rest
    decreases |s|, 0
  {
    if s != [] {
      assert s == [s[0]] + s[1..];
      if s[0] == Open {
        PrintParsedOr(s[1..]);
        match ParseOr(s[1..]) {
          case Fail =>
          case Got(ts, rest) =>
            if rest != [] { assert rest == [rest[0]] + rest[1..]; }
        }
      }
    }
  }

  // ---------- meaning

  function Eval<A>(c: Condition<A>, sem: A -> Truth): Truth
    decreases c, 0
  {
    Any3(EvalTerms(c.terms, sem))
  }

  function EvalTerms<A>(ts: seq<Term<A>>, sem: A -> Truth): (r: seq<Truth>)
    ensures |r| == |ts| && forall i :: 0 <= i < |ts| ==> r[i] == All3(EvalFactors(ts[i].factors, sem))
    decreases ts, 0
  {
    seq(|ts|, i requires 0 <= i < |ts| => All3(EvalFactors(ts[i].factors, sem)))
  }

  function EvalFactors<A>(fs: seq<Factor<A>>, sem: A -> Truth): (r: seq<Truth>)
    ensures |r| == |fs| && forall i :: 0 <= i < |fs| ==> r[i] == EvalFactor(fs[i], sem)
    decreases fs, 0
  {
    seq(|fs|, i requires 0 <= i < |fs| => EvalFactor(fs[i], sem))
  }

  function EvalFactor<A>(f: Factor<A>, sem: A -> Truth): Truth
    decreases f, 0
  {
    var t := match f.primary case Leaf(a) => sem(a) case Nested(c) => Eval(c, sem);
    if f.negated then Not3(t) else t
  }
}
