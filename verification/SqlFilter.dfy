/** Metadata filters printed as one Infinity search condition, and what the condition means
    once SQL's own precedence has read it back. */
module SqlFilter {
  import opened Glob
  import opened MetaValues
  import opened SqlCondition
  import opened SqlText

  // ---------- predicates of the condition

  /** Predicates as printed; a `body` is the inside of a string literal. */
  datatype Atom =
    | Always
    | JsonText(key: string, body: string)
    | JsonNum(key: string, shown: string)
    | Like(key: string, body: string)
    | TextCompare(key: string, op: Op, body: string)
    | NumCompare(key: string, op: Op, shown: string)

  /** One document as the engine sees it: which JSON values a key holds, the extracted text of
      a key if there is one, and the engine's comparisons. */
  datatype Row = Row(holds: (string, string) -> Truth, text: string -> Option<string>,
                     compareText: (string, Op, string) -> Truth, compareNum: (string, Op, string) -> Truth)

  function FromBool(b: bool): Truth { if b then True else False }

  /** A predicate on a document; a missing value compares as unknown. */
  ghost function Sem(a: Atom, row: Row): Truth {
    match a
    case Always => True
    case JsonText(k, body) => (match Unquote(body) case None => Unknown case Some(t) => row.holds(k, t))
    case JsonNum(k, n) => row.holds(k, n)
    case Like(k, body) => (match row.text(k) case None => Unknown case Some(v) => FromBool(LikeBody(body, v)))
    case TextCompare(k, op, body) =>
      (match row.text(k)
       case None => Unknown
       case Some(v) => match Unquote(body) case None => Unknown case Some(t) => CompareWords(v, op, t, row))
    case NumCompare(k, op, n) => row.compareNum(k, op, n)
  }

  function CompareWords(v: string, op: Op, t: string, row: Row): Truth {
    match op
    case Eq => FromBool(v == t)
    case Ne => FromBool(v != t)
    case _ => row.compareText(v, op, t)
  }

  ghost function Meaning(row: Row): Atom -> Truth {
    (a: Atom) => Sem(a, row)
  }

  // ---------- coercion

  datatype Coercions = Coercions(number: string -> Option<string>, members: Value -> Option<seq<Value>>)

  function Scale(co: Coercions, shown: string): Scalar {
    match co.number(shown) case Some(n) => Num(n) case None => Word(shown)
  }

  function CoerceRange(v: Value, co: Coercions): Option<Scalar> {
    if v.Null? then None else Some(Scale(co, Shown(v)))
  }

  function CoerceScalar(v: Value, co: Coercions): Option<Scalar> {
    if v.Null? || v.Items? then None else Some(Scale(co, Shown(v)))
  }

  /** `not value and value != 0`. */
  predicate Blank(v: Value) {
    v.Null? || (v.Text? && v.s == "") || (v.Items? && v.shown in {"[]", "{}", "()"})
  }

  predicate Letter(c: char) { 'a' <= c <= 'z' || 'A' <= c <= 'Z' || c == '_' }

  predicate Identifier(s: string) {
    s != "" && Letter(s[0]) && forall i :: 0 <= i < |s| ==> Letter(s[i]) || '0' <= s[i] <= '9'
  }

  /** The key pattern; its `$` also accepts one newline at the very end. */
  predicate ValidKey(s: string) {
    Identifier(s) || (s != "" && s[|s| - 1] == '\n' && Identifier(s[..|s| - 1]))
  }

  // ---------- the printer

  type Tokens = seq<Token<Atom>>

  function Join(parts: seq<Tokens>, word: Token<Atom>): Tokens {
    if parts == [] then [] else if |parts| == 1 then parts[0] else parts[0] + [word] + Join(parts[1..], word)
  }

  function HasJson(k: string, s: Scalar): Atom {
    match s case Word(t) => JsonText(k, JsonBody(t)) case Num(n) => JsonNum(k, n)
  }

  /** The atoms of a membership list, text first, each kind in list order. */
  function Words(k: string, ss: seq<Scalar>): (r: seq<Atom>)
    ensures |r| <= |ss|
  {
    if ss == [] then [] else
    Words(k, ss[..|ss| - 1]) + if ss[|ss| - 1].Word? then [HasJson(k, ss[|ss| - 1])] else []
  }

  function Nums(k: string, ss: seq<Scalar>): (r: seq<Atom>)
    ensures |r| <= |ss|
  {
    if ss == [] then [] else
    Nums(k, ss[..|ss| - 1]) + if ss[|ss| - 1].Num? then [HasJson(k, ss[|ss| - 1])] else []
  }

  /** Each atom on its own, negated or not. */
  function Bare(atoms: seq<Atom>, negated: bool): (r: seq<Tokens>)
    ensures |r| == |atoms|
    ensures forall i :: 0 <= i < |r| ==> r[i] == (if negated then [NotWord] else []) + [Pred(atoms[i])]
  {
    seq(|atoms|, i requires 0 <= i < |atoms| => (if negated then [NotWord] else []) + [Pred(atoms[i])])
  }

  function Bracket(s: Tokens): Tokens { [Open] + s + [Close] }

  /** Members coerced one by one; a missing member is refused. */
  function Coerced(ms: seq<Value>, co: Coercions): (r: Option<seq<Scalar>>)
    ensures r.Some? <==> forall i :: 0 <= i < |ms| ==> !ms[i].Null?
    ensures r.Some? ==> |r.value| == |ms|
  {
    if ms == [] then Some([]) else
    assert ms == ms[..|ms| - 1] + [ms[|ms| - 1]];
    match Coerced(ms[..|ms| - 1], co)
    case None => None
    case Some(ss) => match CoerceRange(ms[|ms| - 1], co) case None => None case Some(s) => Some(ss + [s])
  }

  /** The common loop of `_translate_in` and `_translate_not_in`: split the members into text
      and numbers as they are coerced. */
  method SplitMembers(k: string, ms: seq<Value>, co: Coercions) returns (ok: bool, words: seq<Atom>, nums: seq<Atom>)
    ensures ok <==> Coerced(ms, co).Some?
    ensures ok ==> words == Words(k, Coerced(ms, co).value) && nums == Nums(k, Coerced(ms, co).value)
  {
    hide Coerced, Words, Nums, HasJson;
    words, nums, ok := [], [], true;
    ghost var ss: seq<Scalar> := [];
    NoMembers(k, ms, co);
    for i := 0 to |ms|
      invariant Coerced(ms[..i], co) == Some(ss) && words == Words(k, ss) && nums == Nums(k, ss)
    {
      var c := CoerceRange(ms[i], co);
      MemberStep(k, ms, i, ss, co);
      match c {
        case None => return false, [], [];
        case Some(s) =>
          match s {
            case Num(_) => nums := nums + [HasJson(k, s)];
            case Word(_) => words := words + [HasJson(k, s)];
          }
          ss := ss + [s];
      }
    }
    assert ms[..|ms|] == ms;
  }

  lemma NoMembers(k: string, ms: seq<Value>, co: Coercions)
    ensures Coerced(ms[..0], co) == Some([]) && Words(k, []) == [] && Nums(k, []) == []
  {
    assert ms[..0] == [];
  }

  lemma MemberStep(k: string, ms: seq<Value>, i: nat, ss: seq<Scalar>, co: Coercions)
    requires i < |ms| && Coerced(ms[..i], co) == Some(ss)
    ensures CoerceRange(ms[i], co).None? ==> Coerced(ms, co).None?
    ensures CoerceRange(ms[i], co).Some? ==>
              var s := CoerceRange(ms[i], co).value;
              Coerced(ms[..i + 1], co) == Some(ss + [s])
              && Words(k, ss + [s]) == Words(k, ss) + (if s.Word? then [HasJson(k, s)] else [])
              && Nums(k, ss + [s]) == Nums(k, ss) + (if s.Num? then [HasJson(k, s)] else [])
  {
    hide HasJson;
    assert ms[..i + 1][..i] == ms[..i];
    match CoerceRange(ms[i], co) {
      case None => assert ms[i].Null?;
      case Some(s) => assert (ss + [s])[..|ss|] == ss;
    }
  }

  method TranslateIn(k: string, ms: seq<Value>, co: Coercions) returns (r: Result<Tokens>)
    requires ms != []
    ensures r.Ok? <==> Coerced(ms, co).Some?
    ensures r.Ok? ==> r.value == PrintFactors(InFactors(k, Coerced(ms, co).value))
  {
    var ok, words, nums := SplitMembers(k, ms, co);
    if !ok {
      return Err(BadValue);
    }
    var conditions: seq<Tokens> := [];
    if words != [] {
      conditions := conditions + [Bracket(Join(Bare(words, false), OrWord))];
    }
    if nums != [] {
      conditions := conditions + [Bracket(Join(Bare(nums, false), OrWord))];
    }
    PrintIn(k, Coerced(ms, co).value);
    return Ok(Bracket(Join(conditions, OrWord)));
  }

  method TranslateNotIn(k: string, ms: seq<Value>, co: Coercions) returns (r: Result<Tokens>)
    requires ms != []
    ensures r.Ok? <==> Coerced(ms, co).Some?
    ensures r.Ok? ==> r.value == PrintFactors(NotInFactors(k, Coerced(ms, co).value))
  {
    var ok, words, nums := SplitMembers(k, ms, co);
    if !ok {
      return Err(BadValue);
    }
    var conditions: seq<Tokens> := [];
    if words != [] {
      conditions := conditions + [Bracket(Join(Bare(words, true), AndWord))];
    }
    if nums != [] {
      conditions := conditions + [Bracket(Join(Bare(nums, true), AndWord))];
    }
    PrintNotIn(k, Coerced(ms, co).value);
    return Ok(Join(conditions, AndWord));
  }

  // ---------- the trees behind the printed fragments

  function One(a: Atom): Factor<Atom> { Factor(false, Leaf(a)) }

  function Neg(a: Atom): Factor<Atom> { Factor(true, Leaf(a)) }

  function OrOf(atoms: seq<Atom>): (c: Condition<Atom>)
    ensures |c.terms| == |atoms| && forall i :: 0 <= i < |atoms| ==> c.terms[i] == Term([One(atoms[i])])
  {
    Condition(seq(|atoms|, i requires 0 <= i < |atoms| => Term([One(atoms[i])])))
  }

  function NegEach(atoms: seq<Atom>): (fs: seq<Factor<Atom>>)
    ensures |fs| == |atoms| && forall i :: 0 <= i < |atoms| ==> fs[i] == Neg(atoms[i])
  {
    seq(|atoms|, i requires 0 <= i < |atoms| => Neg(atoms[i]))
  }

  function Grouped(c: Condition<Atom>): Factor<Atom> { Factor(false, Nested(c)) }

  function InTerms(k: string, ss: seq<Scalar>): seq<Term<Atom>> {
    (if Words(k, ss) == [] then [] else [Term([Grouped(OrOf(Words(k, ss)))])])
    + (if Nums(k, ss) == [] then [] else [Term([Grouped(OrOf(Nums(k, ss)))])])
  }

  /** One factor: the alternatives, bracketed twice. */
  function InFactors(k: string, ss: seq<Scalar>): seq<Factor<Atom>> {
    [Grouped(Condition(InTerms(k, ss)))]
  }

  /** One factor a kind of member, with no bracket around the two. */
  function NotInFactors(k: string, ss: seq<Scalar>): seq<Factor<Atom>> {
    (if Words(k, ss) == [] then [] else [Grouped(Condition([Term(NegEach(Words(k, ss)))]))])
    + (if Nums(k, ss) == [] then [] else [Grouped(Condition([Term(NegEach(Nums(k, ss)))]))])
  }

  lemma {:induction false} JoinTerms(ts: seq<Term<Atom>>, parts: seq<Tokens>)
    requires |ts| == |parts| && forall i :: 0 <= i < |ts| ==> parts[i] == PrintFactors(ts[i].factors)
    ensures PrintTerms(ts) == Join(parts, OrWord)
    decreases |ts|
  {
    hide PrintFactors;
    if |ts| <= 1 {
    } else {
      JoinTerms(ts[1..], parts[1..]);
    }
  }

  lemma {:induction false} JoinFactors(fs: seq<Factor<Atom>>, parts: seq<Tokens>)
    requires |fs| == |parts| && forall i :: 0 <= i < |fs| ==> parts[i] == PrintFactor(fs[i])
    ensures PrintFactors(fs) == Join(parts, AndWord)
    decreases |fs|
  {
    hide PrintFactor;
    if |fs| <= 1 {
    } else {
      JoinFactors(fs[1..], parts[1..]);
    }
  }

  lemma PrintSingle(f: Factor<Atom>)
    ensures PrintFactors([f]) == PrintFactor(f)
  {
  }

  lemma PrintGrouped(c: Condition<Atom>)
    ensures PrintFactor(Grouped(c)) == Bracket(PrintTerms(c.terms))
  {
    assert PrintFactor(Grouped(c)) == [] + PrintPrimary(Nested(c)) == PrintPrimary(Nested(c));
  }

  lemma PrintOrOf(atoms: seq<Atom>)
    requires atoms != []
    ensures PrintFactors([Grouped(OrOf(atoms))]) == Bracket(Join(Bare(atoms, false), OrWord))
  {
    var c, parts := OrOf(atoms), Bare(atoms, false);
    forall i | 0 <= i < |atoms| ensures parts[i] == PrintFactors(c.terms[i].factors) { PrintSingle(One(atoms[i])); }
    hide PrintTerms, PrintFactors, PrintFactor, Join;
    JoinTerms(c.terms, parts);
    PrintSingle(Grouped(c));
    PrintGrouped(c);
  }

  lemma PrintAndOf(atoms: seq<Atom>)
    requires atoms != []
    ensures PrintFactor(Grouped(Condition([Term(NegEach(atoms))]))) == Bracket(Join(Bare(atoms, true), AndWord))
  {
    var fs, parts := NegEach(atoms), Bare(atoms, true);
    forall i | 0 <= i < |atoms| ensures parts[i] == PrintFactor(fs[i]) { }
    JoinFactors(fs, parts);
    hide PrintFactors, PrintFactor, Join;
    var c := Condition([Term(fs)]);
    assert PrintTerms(c.terms) == PrintFactors(c.terms[0].factors);
    PrintGrouped(c);
  }

  lemma PrintIn(k: string, ss: seq<Scalar>)
    ensures var a := if Words(k, ss) == [] then [] else [Bracket(Join(Bare(Words(k, ss), false), OrWord))];
            var b := if Nums(k, ss) == [] then [] else [Bracket(Join(Bare(Nums(k, ss), false), OrWord))];
            PrintFactors(InFactors(k, ss)) == Bracket(Join(a + b, OrWord))
  {
    var a := if Words(k, ss) == [] then [] else [Bracket(Join(Bare(Words(k, ss), false), OrWord))];
    var b := if Nums(k, ss) == [] then [] else [Bracket(Join(Bare(Nums(k, ss), false), OrWord))];
    if Words(k, ss) != [] { PrintOrOf(Words(k, ss)); }
    if Nums(k, ss) != [] { PrintOrOf(Nums(k, ss)); }
    JoinTerms(InTerms(k, ss), a + b);
    hide PrintTerms, PrintFactors, PrintFactor, Join, Words, Nums, InTerms;
    var c := Condition(InTerms(k, ss));
    PrintSingle(Grouped(c));
    PrintGrouped(c);
  }

  lemma PrintNotIn(k: string, ss: seq<Scalar>)
    ensures var a := if Words(k, ss) == [] then [] else [Bracket(Join(Bare(Words(k, ss), true), AndWord))];
            var b := if Nums(k, ss) == [] then [] else [Bracket(Join(Bare(Nums(k, ss), true), AndWord))];
            PrintFactors(NotInFactors(k, ss)) == Join(a + b, AndWord)
  {
    var a := if Words(k, ss) == [] then [] else [Bracket(Join(Bare(Words(k, ss), true), AndWord))];
    var b := if Nums(k, ss) == [] then [] else [Bracket(Join(Bare(Nums(k, ss), true), AndWord))];
    if Words(k, ss) != [] { PrintAndOf(Words(k, ss)); }
    if Nums(k, ss) != [] { PrintAndOf(Nums(k, ss)); }
    JoinFactors(NotInFactors(k, ss), a + b);
  }

  // ---------- one filter

  /** Which filters have a fragment: a usable key, a known operator, and a value that fits it. */
  predicate WellFormed(f: Filter, co: Coercions) {
    && f.key.Text? && f.key.s != "" && ValidKey(f.key.s)
    && match f.op
       case Unsupported => false
       case Empty | NotEmpty => true
       case Eq | Ne => !f.value.Null? && !f.value.Items?
       case In | NotIn =>
         var ms := co.members(f.value);
         ms.Some? && ms.value != [] && forall i :: 0 <= i < |ms.value| ==> !ms.value[i].Null?
       case Contains => !Blank(f.value)
       case NotContains | StartWith | EndWith => !f.value.Null? && !f.value.Items? && Shown(f.value) != ""
       case Gt | Lt | Ge | Le => !f.value.Null?
  }

  /** The tree of a fragment: a list of AND-ed factors, or a refusal. */
  function Factors(f: Filter, co: Coercions): (r: Result<seq<Factor<Atom>>>)
    ensures r.Ok? <==> WellFormed(f, co)
  {
    if !f.key.Text? || f.key.s == "" || !ValidKey(f.key.s) then Err(NoKey)
    else
      var k, v := f.key.s, f.value;
      match f.op
      case Unsupported => Err(UnknownOp)
      case Empty => Ok([One(TextCompare(k, Eq, "\"\""))])
      case NotEmpty => Ok([One(TextCompare(k, Ne, "\"\""))])
      case Eq => (match CoerceScalar(v, co) case None => Err(BadValue) case Some(s) => Ok([One(HasJson(k, s))]))
      case Ne => (match CoerceScalar(v, co) case None => Err(BadValue) case Some(s) => Ok([Neg(HasJson(k, s))]))
      case In => (match MemberList(v, co) case None => Err(BadValue) case Some(ss) => Ok(InFactors(k, ss)))
      case NotIn => (match MemberList(v, co) case None => Err(BadValue) case Some(ss) => Ok(NotInFactors(k, ss)))
      case Contains => if Blank(v) then Err(BadValue) else Ok([One(HasJson(k, Scale(co, Shown(v))))])
      case NotContains => (match CoerceString(v) case None => Err(BadValue)
          case Some(t) => Ok([Neg(HasJson(k, Word(t)))]))
      case StartWith => (match CoerceString(v) case None => Err(BadValue)
          case Some(t) => Ok([One(Like(k, StartBody(t)))]))
      case EndWith => (match CoerceString(v) case None => Err(BadValue) case Some(t) => Ok([One(Like(k, EndBody(t)))]))
      case _ => (match CoerceRange(v, co) case None => Err(BadValue) case Some(s) => Ok([One(Ranged(k, f.op, s))]))
  }

  function Ranged(k: string, op: Op, s: Scalar): Atom {
    match s case Word(t) => TextCompare(k, op, EscapeSql(t)) case Num(n) => NumCompare(k, op, n)
  }

  /** `_csv_or_list` refuses an empty list. */
  function MemberList(v: Value, co: Coercions): (r: Option<seq<Scalar>>)
    ensures r.Some? ==> r.value != []
  {
    match co.members(v)
    case None => None
    case Some(ms) => if ms == [] then None else Coerced(ms, co)
  }

  /** `translate`: tokens of one filter. */
  method Translate(f: Filter, co: Coercions) returns (r: Result<Tokens>)
    ensures r.Ok? <==> WellFormed(f, co)
    ensures r.Ok? ==> r.value == PrintFactors(Factors(f, co).value)
  {
    if !f.key.Text? || f.key.s == "" || !ValidKey(f.key.s) {
      return Err(NoKey);
    }
    var k := f.key.s;
    if f.op.In? || f.op.NotIn? {
      hide InFactors, NotInFactors, Coerced;
      var ms := co.members(f.value);
      if ms.None? || ms.value == [] {
        return Err(BadValue);
      }
      if f.op.In? {
        r := TranslateIn(k, ms.value, co);
      } else {
        r := TranslateNotIn(k, ms.value, co);
      }
    } else {
      SingleFactor(f, co);
      match Factors(f, co) {
        case Err(why) => r := Err(why);
        case Ok(fs) => r := Ok((if fs[0].negated then [NotWord] else []) + [Pred(fs[0].primary.atom)]);
      }
    }
  }

  lemma SingleFactor(f: Filter, co: Coercions)
    requires !f.op.In? && !f.op.NotIn?
    ensures Factors(f, co).Ok? ==>
              var fs := Factors(f, co).value;
              |fs| == 1 && fs[0].primary.Leaf?
              && PrintFactors(fs) == PrintFactor(fs[0])
  {
  }

  // ---------- what one filter means

  ghost function HoldsScalar(k: string, s: Scalar, row: Row): Truth {
    match s case Word(t) => row.holds(k, SqlText.JsonText(t)) case Num(n) => row.holds(k, n)
  }

  ghost function HoldsEach(k: string, ss: seq<Scalar>, row: Row): (r: seq<Truth>)
    ensures |r| == |ss| && forall i :: 0 <= i < |ss| ==> r[i] == HoldsScalar(k, ss[i], row)
  {
    seq(|ss|, i requires 0 <= i < |ss| => HoldsScalar(k, ss[i], row))
  }

  /** Truth of a test on the extracted text; unknown without one. */
  datatype Test = IsText(t: string) | NotText(t: string) | Starts(t: string) | Ends(t: string) | Compares(op: Op,
      t: string)

  function OnText(k: string, test: Test, row: Row): Truth {
    match row.text(k)
    case None => Truth.Unknown
    case Some(v) =>
      match test
      case IsText(t) => FromBool(v == t)
      case NotText(t) => FromBool(v != t)
      case Starts(t) => FromBool(StartsWith(v, t))
      case Ends(t) => FromBool(EndsWith(v, t))
      case Compares(op, t) => row.compareText(v, op, t)
  }

  /** The key holds the value that the text `shown` stands for: the number it can be read as, or else
      the text itself. */
  ghost function HasValue(k: string, shown: string, co: Coercions, row: Row): Truth {
    match co.number(shown) case Some(n) => row.holds(k, n) case None => row.holds(k, SqlText.JsonText(shown))
  }

  ghost function HasEach(k: string, ms: seq<Value>, co: Coercions, row: Row): (r: seq<Truth>)
    ensures |r| == |ms| && forall i :: 0 <= i < |ms| ==> r[i] == HasValue(k, Shown(ms[i]), co, row)
  {
    seq(|ms|, i requires 0 <= i < |ms| => HasValue(k, Shown(ms[i]), co, row))
  }

  /** The meaning of a filter, said without tokens, literals, patterns or coerced lists. */
  ghost function FilterMeaning(f: Filter, co: Coercions, row: Row): Truth
    requires WellFormed(f, co)
  {
    var k, shown := f.key.s, Shown(f.value);
    match f.op
    case Empty => OnText(k, IsText("\"\""), row)
    case NotEmpty => OnText(k, NotText("\"\""), row)
    case Eq => HasValue(k, shown, co, row)
    case Ne => Not3(HasValue(k, shown, co, row))
    case In => Any3(HasEach(k, co.members(f.value).value, co, row))
    case NotIn => Not3(Any3(HasEach(k, co.members(f.value).value, co, row)))
    case Contains => HasValue(k, shown, co, row)
    case NotContains => Not3(row.holds(k, SqlText.JsonText(shown)))
    case StartWith => OnText(k, Starts(shown), row)
    case EndWith => OnText(k, Ends(shown), row)
    case Gt | Lt | Ge | Le =>
      (match co.number(shown)
       case Some(n) => row.compareNum(k, f.op, n)
       case None => OnText(k, Compares(f.op, shown), row))
  }

  lemma ScaleHolds(k: string, shown: string, co: Coercions, row: Row)
    ensures HoldsScalar(k, Scale(co, shown), row) == HasValue(k, shown, co, row)
  {
  }

  /** Coerced members hold what the members as given hold. */
  lemma {:induction false} CoercedHolds(k: string, ms: seq<Value>, co: Coercions, row: Row)
    requires Coerced(ms, co).Some?
    ensures HoldsEach(k, Coerced(ms, co).value, row) == HasEach(k, ms, co, row)
    decreases |ms|
  {
    hide HoldsScalar, HasValue, Scale;
    if ms == [] {
    } else {
      var init, last := ms[..|ms| - 1], ms[|ms| - 1];
      CoercedHolds(k, init, co, row);
      ScaleHolds(k, Shown(last), co, row);
      assert ms == init + [last];
    }
  }

  lemma HasJsonMeans(k: string, s: Scalar, row: Row)
    ensures Sem(HasJson(k, s), row) == HoldsScalar(k, s, row)
  {
    match s { case Word(t) => JsonBodyMeans(t); case Num(n) => }
  }

  ghost function SemEach(atoms: seq<Atom>, row: Row): (r: seq<Truth>)
    ensures |r| == |atoms| && forall i :: 0 <= i < |atoms| ==> r[i] == Sem(atoms[i], row)
  {
    seq(|atoms|, i requires 0 <= i < |atoms| => Sem(atoms[i], row))
  }

  lemma EvalOrOf(atoms: seq<Atom>, row: Row)
    ensures Eval(OrOf(atoms), Meaning(row)) == Any3(SemEach(atoms, row))
  {
    var c, sem := OrOf(atoms), Meaning(row);
    var ts := EvalTerms(c.terms, sem);
    forall i | 0 <= i < |atoms| ensures ts[i] == Sem(atoms[i], row) {
      OneFactor(One(atoms[i]), sem);
      assert EvalFactor(One(atoms[i]), sem) == sem(atoms[i]);
    }
    assert ts == SemEach(atoms, row);
  }

  lemma OneFactor(f: Factor<Atom>, sem: Atom -> Truth)
    ensures All3(EvalFactors([f], sem)) == EvalFactor(f, sem)
  {
    var r := EvalFactors([f], sem);
    assert r == [EvalFactor(f, sem)];
    assert r[..0] == [];
  }

  lemma EvalAndOf(atoms: seq<Atom>, row: Row)
    ensures EvalFactor(Grouped(Condition([Term(NegEach(atoms))])), Meaning(row)) == Not3(Any3(SemEach(atoms, row)))
  {
    var fs, sem := NegEach(atoms), Meaning(row);
    var r := EvalFactors(fs, sem);
    forall i | 0 <= i < |atoms| ensures r[i] == Not3(Sem(atoms[i], row)) {
      assert EvalFactor(fs[i], sem) == Not3(sem(atoms[i]));
    }
    assert r == Not3Each(SemEach(atoms, row));
    DeMorgan(SemEach(atoms, row));
    OneTerm(Term(fs), sem);
  }

  lemma OneTerm(t: Term<Atom>, sem: Atom -> Truth)
    ensures Eval(Condition([t]), sem) == All3(EvalFactors(t.factors, sem))
  {
    var ts := EvalTerms([t], sem);
    assert ts == [All3(EvalFactors(t.factors, sem))] && ts[..0] == [];
  }

  lemma NoSplit(k: string, row: Row)
    ensures Words(k, []) == [] && Nums(k, []) == []
    ensures Any3(HoldsEach(k, [], row)) == Any3(SemEach([], row)) == False
  {
  }

  lemma SplitSnoc(k: string, ss: seq<Scalar>)
    requires ss != []
    ensures var init, last := ss[..|ss| - 1], ss[|ss| - 1];
            && Words(k, ss) == (if last.Word? then Words(k, init) + [HasJson(k, last)] else Words(k, init))
            && Nums(k, ss) == if last.Num? then Nums(k, init) + [HasJson(k, last)] else Nums(k, init)
  {
    hide HasJson;
  }

  /** Whichever list holds a member's atom, it says what the member says. */
  lemma {:induction false} MembersSplit(k: string, ss: seq<Scalar>, row: Row)
    ensures Any3(HoldsEach(k, ss, row)) == Or3(Any3(SemEach(Words(k, ss), row)), Any3(SemEach(Nums(k, ss), row)))
    decreases |ss|
  {
    hide Any3, SemEach, Sem, HoldsEach, HoldsScalar, HasJson, Words, Nums;
    if ss == [] {
      NoSplit(k, row);
    } else {
      var init, last := ss[..|ss| - 1], ss[|ss| - 1];
      MembersSplit(k, init, row);
      HasJsonMeans(k, last, row);
      HoldsSnoc(k, ss, row);
      SplitSnoc(k, ss);
      SemSnoc(Words(k, init), HasJson(k, last), row);
      SemSnoc(Nums(k, init), HasJson(k, last), row);
    }
  }

  lemma HoldsSnoc(k: string, ss: seq<Scalar>, row: Row)
    requires ss != []
    ensures Any3(HoldsEach(k, ss, row)) == Or3(Any3(HoldsEach(k, ss[..|ss| - 1], row)),
        HoldsScalar(k, ss[|ss| - 1], row))
  {
    hide HoldsScalar;
    assert HoldsEach(k, ss, row)[..|ss| - 1] == HoldsEach(k, ss[..|ss| - 1], row);
  }

  lemma SemSnoc(atoms: seq<Atom>, a: Atom, row: Row)
    ensures Any3(SemEach(atoms + [a], row)) == Or3(Any3(SemEach(atoms, row)), Sem(a, row))
  {
    hide Sem;
    assert SemEach(atoms + [a], row)[..|atoms|] == SemEach(atoms, row);
  }

  /** Both folds over at most two truth values. */
  lemma Small(r: seq<Truth>)
    requires |r| <= 2
    ensures Any3(r) == if |r| == 0 then False else if |r| == 1 then r[0] else Or3(r[0], r[1])
    ensures All3(r) == if |r| == 0 then True else if |r| == 1 then r[0] else And3(r[0], r[1])
  {
    if |r| == 2 { assert r[..1] == [r[0]] && r[..1][..0] == []; }
    if |r| == 1 { assert r[..0] == []; }
  }

  lemma InMeans(k: string, ss: seq<Scalar>, row: Row)
    ensures All3(EvalFactors(InFactors(k, ss), Meaning(row))) == Any3(HoldsEach(k, ss, row))
  {
    var sem, c := Meaning(row), Condition(InTerms(k, ss));
    OneFactor(Grouped(c), sem);
    MembersSplit(k, ss, row);
    GroupMeans(Words(k, ss), row);
    GroupMeans(Nums(k, ss), row);
    hide Words, Nums, Sem, Meaning, EvalFactors, All3, Any3;
    NoneHolds(row);
    Small(EvalTerms(InTerms(k, ss), sem));
  }

  lemma NoneHolds(row: Row)
    ensures Any3(SemEach([], row)) == False
  {
  }

  lemma GroupMeans(atoms: seq<Atom>, row: Row)
    ensures All3(EvalFactors([Grouped(OrOf(atoms))], Meaning(row))) == Any3(SemEach(atoms, row))
  {
    OneFactor(Grouped(OrOf(atoms)), Meaning(row));
    EvalOrOf(atoms, row);
  }

  lemma NotInMeans(k: string, ss: seq<Scalar>, row: Row)
    ensures All3(EvalFactors(NotInFactors(k, ss), Meaning(row))) == Not3(Any3(HoldsEach(k, ss, row)))
  {
    var sem := Meaning(row);
    MembersSplit(k, ss, row);
    EvalAndOf(Words(k, ss), row);
    EvalAndOf(Nums(k, ss), row);
    hide Words, Nums, Sem, Meaning, EvalFactor;
    Small(EvalFactors(NotInFactors(k, ss), sem));
  }

  /** `not in` is the exact complement of `in`, whatever mixture of text and numbers. */
  lemma NotInComplements(k: string, ss: seq<Scalar>, row: Row)
    ensures All3(EvalFactors(NotInFactors(k, ss), Meaning(row))) ==
        Not3(All3(EvalFactors(InFactors(k, ss), Meaning(row))))
  {
    InMeans(k, ss, row);
    NotInMeans(k, ss, row);
  }

  lemma AtomMeans(a: Atom, negated: bool, row: Row)
    ensures All3(EvalFactors([Factor(negated, Leaf(a))], Meaning(row))) == if negated then Not3(Sem(a, row))
        else Sem(a, row)
  {
    var f := Factor(negated, Leaf(a));
    OneFactor(f, Meaning(row));
    assert EvalFactor(f, Meaning(row)) == var t := Meaning(row)(a); if negated then Not3(t) else t;
  }

  lemma RangedMeans(k: string, op: Op, s: Scalar, row: Row)
    requires op.Gt? || op.Lt? || op.Ge? || op.Le?
    ensures Sem(Ranged(k, op, s), row) ==
            match s case Word(t) => OnText(k, Compares(op, t), row) case Num(n) => row.compareNum(k, op, n)
  {
    match s { case Word(t) => UnquoteEscaped(t); case Num(n) => }
  }

  lemma LikeMeans(k: string, t: string, row: Row)
    ensures Sem(Like(k, StartBody(t)), row) == OnText(k, Starts(t), row)
    ensures Sem(Like(k, EndBody(t)), row) == OnText(k, Ends(t), row)
  {
    hide StartBody, EndBody, LikeBody;
    match row.text(k) {
      case None =>
      case Some(v) =>
        StartBodyMeans(t, v);
        EndBodyMeans(t, v);
    }
  }

  lemma ScalarMeans(k: string, shown: string, co: Coercions, row: Row)
    ensures var a, m := Meaning(row), HasValue(k, shown, co, row);
            All3(EvalFactors([One(HasJson(k, Scale(co, shown)))], a)) == m
            && All3(EvalFactors([Neg(HasJson(k, Scale(co, shown)))], a)) == Not3(m)
  {
    hide HasJson, Scale, EvalFactors, All3, HasValue, Meaning, Sem;
    var s := Scale(co, shown);
    AtomMeans(HasJson(k, s), false, row);
    AtomMeans(HasJson(k, s), true, row);
    HasJsonMeans(k, s, row);
    ScaleHolds(k, shown, co, row);
  }

  lemma WordMeans(k: string, t: string, row: Row)
    ensures All3(EvalFactors([Neg(HasJson(k, Word(t)))], Meaning(row))) == Not3(row.holds(k, SqlText.JsonText(t)))
  {
    hide HasJson, EvalFactors, All3, Meaning, Sem;
    AtomMeans(HasJson(k, Word(t)), true, row);
    HasJsonMeans(k, Word(t), row);
  }

  /** A fragment means what its filter means. */
  lemma FragmentMeans(f: Filter, co: Coercions, row: Row)
    requires WellFormed(f, co)
    ensures All3(EvalFactors(Factors(f, co).value, Meaning(row))) == FilterMeaning(f, co, row)
  {
    var k, v := f.key.s, f.value;
    hide All3, EvalFactors, InFactors, NotInFactors, HoldsScalar, HoldsEach, Any3, Coerced, MemberList, HasJson,
         Ranged, ValidKey, Sem,
         OnText, StartBody, EndBody;
    match f.op {
      case Empty => AtomMeans(TextCompare(k, Eq, "\"\""), false, row); EmptyTextMeans(k, row);
      case NotEmpty => AtomMeans(TextCompare(k, Ne, "\"\""), false, row); EmptyTextMeans(k, row);
      case StartWith => AtomMeans(Like(k, StartBody(Shown(v))), false, row); LikeMeans(k, Shown(v), row);
      case EndWith => AtomMeans(Like(k, EndBody(Shown(v))), false, row); LikeMeans(k, Shown(v), row);
      case Eq => ScalarMeans(k, Shown(v), co, row);
      case Ne => ScalarMeans(k, Shown(v), co, row);
      case In => InMeans(k, MemberList(v, co).value, row); CoercedHolds(k, co.members(v).value, co, row);
      case NotIn => NotInMeans(k, MemberList(v, co).value, row); CoercedHolds(k, co.members(v).value, co, row);
      case Contains => ScalarMeans(k, Shown(v), co, row);
      case NotContains => WordMeans(k, Shown(v), row);
      case Unsupported =>
      case Gt | Lt | Ge | Le =>
        var s := CoerceRange(v, co).value;
        AtomMeans(Ranged(k, f.op, s), false, row);
        RangedMeans(k, f.op, s, row);
    }
  }

  lemma EmptyTextMeans(k: string, row: Row)
    ensures Sem(TextCompare(k, Eq, "\"\""), row) == OnText(k, IsText("\"\""), row)
    ensures Sem(TextCompare(k, Ne, "\"\""), row) == OnText(k, NotText("\"\""), row)
  {
    QuotedEmpty();
  }

  lemma QuotedEmpty()
    ensures Unquote("\"\"") == Some("\"\"")
  {
    ReplaceNothing("\"\"", '\'', "''");
    UnquoteEscaped("\"\"");
  }

  // ---------- the whole condition

  function TermsOf(fs: seq<Filter>, co: Coercions): (ts: seq<Term<Atom>>)
    requires forall i :: 0 <= i < |fs| ==> Factors(fs[i], co).Ok?
    ensures |ts| == |fs| && forall i :: 0 <= i < |fs| ==> ts[i] == Term(Factors(fs[i], co).value)
  {
    seq(|fs|, i requires 0 <= i < |fs| => Term(Factors(fs[i], co).value))
  }

  function Concat(ts: seq<Term<Atom>>): seq<Factor<Atom>> {
    if ts == [] then [] else ts[0].factors + Concat(ts[1..])
  }

  /** What SQL reads: under "or" a term a filter, under "and" all factors in one term. */
  function Tree(fs: seq<Filter>, conj: bool, co: Coercions): Condition<Atom>
    requires forall i :: 0 <= i < |fs| ==> Factors(fs[i], co).Ok?
  {
    if fs == [] then Condition([Term([One(Always)])])
    else
      var ts := TermsOf(fs, co);
      Condition([Term([Grouped(if conj then Condition([Term(Concat(ts))]) else Condition(ts))])])
  }

  lemma {:induction false} FactorsFull(f: Filter, co: Coercions)
    ensures Factors(f, co).Ok? ==> Factors(f, co).value != []
    ensures Factors(f, co).Ok? ==> FilledTerm(Term(Factors(f, co).value))
  {
    hide ValidKey, InFactors, NotInFactors, MemberList, StartBody, EndBody, HasJson, Ranged, Filled;
    if Factors(f, co).Ok? && (f.op.In? || f.op.NotIn?) {
      MembersFilled(f.key.s, MemberList(f.value, co).value);
    }
  }

  lemma MembersFilled(k: string, ss: seq<Scalar>)
    requires ss != []
    ensures FilledTerm(Term(InFactors(k, ss))) && FilledTerm(Term(NotInFactors(k, ss)))
  {
    WordsOrNums(k, ss);
    AtomsFilled(Words(k, ss));
    AtomsFilled(Nums(k, ss));
    hide Words, Nums;
    var terms := InTerms(k, ss);
    assert Filled(Condition(terms)) by { assert forall i :: 0 <= i < |terms| ==> FilledTerm(terms[i]); }
  }

  lemma AtomsFilled(atoms: seq<Atom>)
    ensures atoms != [] ==> Filled(OrOf(atoms)) && Filled(Condition([Term(NegEach(atoms))]))
  {
    if atoms != [] { assert FilledTerm(Term(NegEach(atoms))); }
  }

  lemma WordsOrNums(k: string, ss: seq<Scalar>)
    requires ss != []
    ensures Words(k, ss) != [] || Nums(k, ss) != []
  {
  }

  lemma {:induction false} PrintConcat(a: seq<Factor<Atom>>, b: seq<Factor<Atom>>)
    requires a != [] && b != []
    ensures PrintFactors(a + b) == PrintFactors(a) + [AndWord] + PrintFactors(b)
    decreases |a|
  {
    hide PrintFactor;
    if |a| == 1 {
      assert (a + b)[1..] == b;
    } else {
      PrintConcat(a[1..], b);
      assert (a + b)[1..] == a[1..] + b;
      Rejoin(PrintFactor(a[0]), AndWord, PrintFactors(a[1..]), [AndWord] + PrintFactors(b));
      var x, y, z := PrintFactor(a[0]), PrintFactors(a[1..]), PrintFactors(b);
      assert (x + [AndWord] + y) + ([AndWord] + z) == (x + [AndWord] + y) + [AndWord] + z;
      assert y + ([AndWord] + z) == y + [AndWord] + z;
    }
  }

  lemma {:induction false} JoinConcat(ts: seq<Term<Atom>>, parts: seq<Tokens>)
    requires ts != [] && |ts| == |parts|
    requires forall i :: 0 <= i < |ts| ==> ts[i].factors != [] && parts[i] == PrintFactors(ts[i].factors)
    ensures Concat(ts) != [] && PrintFactors(Concat(ts)) == Join(parts, AndWord)
    decreases |ts|
  {
    hide PrintFactors;
    if |ts| == 1 {
      assert Concat(ts[1..]) == [] && ts[0].factors + [] == ts[0].factors;
    } else {
      JoinConcat(ts[1..], parts[1..]);
      PrintConcat(ts[0].factors, Concat(ts[1..]));
    }
  }

  lemma JoinsToTree(fs: seq<Filter>, conj: bool, co: Coercions, parts: seq<Tokens>)
    requires fs != [] && |parts| == |fs|
    requires forall i :: 0 <= i < |fs| ==> Factors(fs[i], co).Ok? && parts[i] == PrintFactors(Factors(fs[i], co).value)
    ensures Print(Tree(fs, conj, co)) == Bracket(Join(parts, if conj then AndWord else OrWord))
  {
    var ts := TermsOf(fs, co);
    forall i | 0 <= i < |fs| ensures ts[i].factors != [] { FactorsFull(fs[i], co); }
    hide Factors, PrintFactors, PrintFactor, Join, Concat;
    var inner := if conj then Condition([Term(Concat(ts))]) else Condition(ts);
    if conj {
      JoinConcat(ts, parts);
      assert PrintTerms([Term(Concat(ts))]) == PrintFactors(Concat(ts));
    } else {
      JoinTerms(ts, parts);
    }
    PrintGrouped(inner);
    PrintSingle(Grouped(inner));
    assert PrintTerms([Term([Grouped(inner)])]) == PrintFactors([Grouped(inner)]);
  }

  lemma {:induction false} ConcatFilled(ts: seq<Term<Atom>>)
    requires forall i :: 0 <= i < |ts| ==> FilledTerm(ts[i])
    ensures forall i :: 0 <= i < |Concat(ts)| ==> FilledPrimary(Concat(ts)[i].primary)
    ensures ts != [] ==> Concat(ts) != []
    decreases |ts|
  {
    if ts == [] {
    } else {
      ConcatFilled(ts[1..]);
    }
  }

  lemma TreeFilled(fs: seq<Filter>, conj: bool, co: Coercions)
    requires forall i :: 0 <= i < |fs| ==> Factors(fs[i], co).Ok?
    ensures Filled(Tree(fs, conj, co))
  {
    var ts := TermsOf(fs, co);
    forall i | 0 <= i < |ts| ensures FilledTerm(ts[i]) { FactorsFull(fs[i], co); }
    hide Factors;
    if fs != [] {
      ConcatFilled(ts);
      var inner := if conj then Condition([Term(Concat(ts))]) else Condition(ts);
      assert Filled(inner) by { if conj { assert FilledTerm(Term(Concat(ts))); } }
      assert FilledTerm(Term([Grouped(inner)]));
    }
  }

  lemma {:induction false} EvalConcat(ts: seq<Term<Atom>>, sem: Atom -> Truth)
    ensures All3(EvalFactors(Concat(ts), sem)) == All3(EvalTerms(ts, sem))
    decreases |ts|
  {
    hide EvalFactor, All3;
    if ts != [] {
      EvalConcat(ts[1..], sem);
      EvalSplit(ts[0].factors, Concat(ts[1..]), sem);
      All3Concat(EvalFactors(ts[0].factors, sem), EvalFactors(Concat(ts[1..]), sem));
      assert EvalTerms(ts, sem) == [All3(EvalFactors(ts[0].factors, sem))] + EvalTerms(ts[1..], sem);
      All3Concat([All3(EvalFactors(ts[0].factors, sem))], EvalTerms(ts[1..], sem));
      Small([All3(EvalFactors(ts[0].factors, sem))]);
    } else {
      assert EvalFactors([], sem) == [] && EvalTerms(ts, sem) == [];
    }
  }

  lemma EvalSplit(a: seq<Factor<Atom>>, b: seq<Factor<Atom>>, sem: Atom -> Truth)
    ensures EvalFactors(a + b, sem) == EvalFactors(a, sem) + EvalFactors(b, sem)
  {
    hide EvalFactor;
  }

  lemma {:induction false} All3Concat(a: seq<Truth>, b: seq<Truth>)
    ensures All3(a + b) == And3(All3(a), All3(b))
    decreases |b|
  {
    if b == [] {
      assert a + b == a;
    } else {
      All3Concat(a, b[..|b| - 1]);
      assert (a + b)[..|a + b| - 1] == a + b[..|b| - 1];
    }
  }

  ghost function Meanings(fs: seq<Filter>, co: Coercions, row: Row): (r: seq<Truth>)
    requires forall i :: 0 <= i < |fs| ==> WellFormed(fs[i], co)
    ensures |r| == |fs| && forall i :: 0 <= i < |fs| ==> r[i] == FilterMeaning(fs[i], co, row)
  {
    seq(|fs|, i requires 0 <= i < |fs| => FilterMeaning(fs[i], co, row))
  }

  /** Read back with SQL's precedence, the printed tokens mean the and/or fold of the filters,
      in three truth values, although `not in` fragments are printed without brackets. */
  lemma ConditionMeans(fs: seq<Filter>, conj: bool, co: Coercions, row: Row)
    requires fs != [] && forall i :: 0 <= i < |fs| ==> WellFormed(fs[i], co)
    ensures Parse(Print(Tree(fs, conj, co))) == Got(Tree(fs, conj, co), [])
    ensures Eval(Parse(Print(Tree(fs, conj, co))).value, Meaning(row)) ==
            if conj then All3(Meanings(fs, co, row)) else Any3(Meanings(fs, co, row))
  {
    var ts, sem := TermsOf(fs, co), Meaning(row);
    TreeFilled(fs, conj, co);
    ParsePrinted(Tree(fs, conj, co));
    forall i | 0 <= i < |fs| ensures All3(EvalFactors(ts[i].factors, sem)) == FilterMeaning(fs[i], co, row) {
      FragmentMeans(fs[i], co, row);
    }
    hide Factors, FilterMeaning, EvalFactor, Parse, Print, Concat, Meaning;
    assert EvalTerms(ts, sem) == Meanings(fs, co, row);
    var inner := if conj then Condition([Term(Concat(ts))]) else Condition(ts);
    EvalGrouped(inner, sem);
    if conj {
      EvalConcat(ts, sem);
      OneTerm(Term(Concat(ts)), sem);
    }
  }

  lemma EvalGrouped(c: Condition<Atom>, sem: Atom -> Truth)
    ensures Eval(Condition([Term([Grouped(c)])]), sem) == Eval(c, sem)
  {
    OneTerm(Term([Grouped(c)]), sem);
    OneFactor(Grouped(c), sem);
  }

  /** On every document the tokens, parsed, have the truth value of the and/or fold. */
  ghost predicate Says(tokens: Tokens, fs: seq<Filter>, conj: bool, co: Coercions)
    requires forall i :: 0 <= i < |fs| ==> WellFormed(fs[i], co)
  {
    Parse(tokens).Got? &&
    forall row :: Eval(Parse(tokens).value, Meaning(row)) == if conj then All3(Meanings(fs, co, row))
        else Any3(Meanings(fs, co, row))
  }

  lemma SaysTree(fs: seq<Filter>, conj: bool, co: Coercions)
    requires fs != [] && forall i :: 0 <= i < |fs| ==> WellFormed(fs[i], co)
    ensures Says(Print(Tree(fs, conj, co)), fs, conj, co)
  {
    hide Factors, Tree, Print, Parse, Eval, Meaning, FilterMeaning, All3, Any3;
    var tokens := Print(Tree(fs, conj, co));
    ParsesTree(fs, conj, co);
    forall row: Row
      ensures Eval(Parse(tokens).value, Meaning(row)) == if conj then All3(Meanings(fs, co, row))
          else Any3(Meanings(fs, co, row))
    {
      ConditionMeans(fs, conj, co, row);
    }
  }

  lemma ParsesTree(fs: seq<Filter>, conj: bool, co: Coercions)
    requires forall i :: 0 <= i < |fs| ==> WellFormed(fs[i], co)
    ensures Parse(Print(Tree(fs, conj, co))) == Got(Tree(fs, conj, co), [])
  {
    TreeFilled(fs, conj, co);
    ParsePrinted(Tree(fs, conj, co));
  }

  ghost predicate AllGood(fs: seq<Filter>, co: Coercions) {
    forall i :: 0 <= i < |fs| ==> WellFormed(fs[i], co)
  }

  /** The fragments are the prints of the filters' factor lists. */
  ghost predicate Printed(fs: seq<Filter>, co: Coercions, parts: seq<Tokens>) {
    |parts| == |fs| && forall i :: 0 <= i < |fs| ==>
        Factors(fs[i], co).Ok? && parts[i] == PrintFactors(Factors(fs[i], co).value)
  }

  /** `plan_pushdown`: one fragment a filter, or the first refusal. */
  method PlanPushdown(fs: seq<Filter>, logic: string, co: Coercions) returns (r: Result<seq<Tokens>>)
    ensures r.Ok? <==> logic in {"and", "or"} && AllGood(fs, co)
    ensures r.Ok? ==> Printed(fs, co, r.value)
  {
    if logic !in {"and", "or"} {
      return Err(BadLogic);
    }
    hide Factors, PrintFactors;
    var fragments: seq<Tokens> := [];
    for i := 0 to |fs|
      invariant Printed(fs[..i], co, fragments)
    {
      var t := Translate(fs[i], co);
      match t {
        case Err(why) => return Err(why);
        case Ok(tokens) => fragments := fragments + [tokens];
      }
    }
    assert fs[..|fs|] == fs;
    return Ok(fragments);
  }

  /** `build_infinity_filter`: fragments joined and bracketed, `1=1` without filters. */
  method Build(fs: seq<Filter>, logic: string, co: Coercions) returns (r: Result<Tokens>)
    ensures fs == [] ==> r == Ok([Pred(Always)])
    ensures fs != [] ==> (r.Ok? <==> logic in {"and", "or"} && AllGood(fs, co))
    ensures r.Ok? ==> AllGood(fs, co)
    ensures r.Ok? && fs != [] ==> Says(r.value, fs, logic == "and", co)
  {
    if fs == [] {
      return Ok([Pred(Always)]);
    }
    hide Join, PrintFactors, Tree, Print, Says, Factors;
    var plan := PlanPushdown(fs, logic, co);
    match plan {
      case Err(why) => return Err(why);
      case Ok(fragments) =>
        JoinsToTree(fs, logic == "and", co, fragments);
        SaysTree(fs, logic == "and", co);
        return Ok(Bracket(Join(fragments, if logic == "and" then AndWord else OrWord)));
    }
  }

  /** The extracted text cannot be both what "empty" and what "start with" take it to be: one
      compares it with a pair of double quotes, the other with the bare text. On a stored
      string, "empty" holds only if extraction keeps the quotes, and then "start with" misses
      every search text that does not begin with a quote. */
  lemma ExtractionClash(row: Row, k: string, stored: string, t: string, keepsQuotes: bool)
    requires row.text(k) == Some(if keepsQuotes then SqlText.JsonText(stored) else stored)
    ensures !keepsQuotes && stored != "\"\"" ==> Sem(TextCompare(k, Eq, "\"\""), row) == False
    ensures keepsQuotes ==> (Sem(TextCompare(k, Eq, "\"\""), row) == True <==> stored == "")
    ensures keepsQuotes && t != "" && t[0] != '"' ==> Sem(Like(k, StartBody(t)), row) == False
  {
    QuotedEmpty();
    var v := row.text(k).value;
    StartBodyMeans(t, v);
    if keepsQuotes {
      assert |v| == |stored| + 2;
      if stored == "" { assert v == "\"\""; }
    }
  }
}
