/** Metadata filters compiled to Elasticsearch bool queries, with a small denotational
    semantics for the queries. */
module EsFilter {
  import opened Glob
  import opened MetaValues
  import opened MetaFilter

  // ---------- queries

  datatype Query =
    | Kb(ids: seq<string>)
    | Exists(key: string)
    | Exact(key: string, text: string)
    | Same(key: string, text: string)
    | Numeric(key: string, n: string)
    | AnyNumeric(key: string, ns: seq<Scalar>)
    | Range(key: string, op: Op, bound: Scalar)
    | Prefix(key: string, text: string)
    | Wildcard(key: string, pattern: string)
    | Bool(filter: seq<Query>, must: seq<Query>, mustNot: seq<Query>, should: seq<Query>)

  /** How the engine compares stored values with numbers and range bounds. */
  datatype Engine = Engine(numeric: (string, string) -> bool, range: (string, Op, Scalar) -> bool)

  /** Does document `d` match? A `Bool` asks for every `filter` and `must` clause, no `mustNot`
      clause and, if there is a `should` list, at least one of it; without any clause it
      matches everything. Text comparisons see the stored string and ignore ASCII case. */
  ghost predicate Matches(q: Query, d: Doc, e: Engine)
    decreases q, 1
  {
    match q
    case Kb(ids) => d.kb in ids
    case Exists(k) => exists v :: Has(d, k, v)
    case Exact(k, text) => Has(d, k, text)
    case Same(k, text) => exists v :: Has(d, k, v) && Fold(v) == Fold(text)
    case Numeric(k, n) => exists v :: Has(d, k, v) && e.numeric(v, n)
    case AnyNumeric(k, ns) => exists v, i :: Has(d, k, v) && 0 <= i < |ns| && ns[i].Num? && e.numeric(v, ns[i].shown)
    case Range(k, op, bound) => exists v :: Has(d, k, v) && e.range(v, op, bound)
    case Prefix(k, text) => exists v :: Has(d, k, v) && StartsWith(Fold(v), Fold(text))
    case Wildcard(k, p) => exists v :: Has(d, k, v) && Match(WILDCARD, p, v)
    case Bool(filter, must, mustNot, should) =>
      AllMatch(filter, d, e) && AllMatch(must, d, e) && !AnyMatch(mustNot, d, e)
          && (should == [] || AnyMatch(should, d, e))
  }

  ghost predicate AllMatch(qs: seq<Query>, d: Doc, e: Engine)
    decreases qs, 0
  {
    forall i :: 0 <= i < |qs| ==> Matches(qs[i], d, e)
  }

  ghost predicate AnyMatch(qs: seq<Query>, d: Doc, e: Engine)
    decreases qs, 0
  {
    exists i :: 0 <= i < |qs| && Matches(qs[i], d, e)
  }

  // ---------- one translated filter

  datatype Translated = Translated(must: seq<Query>, mustNot: seq<Query>)

  /** What a translated filter means on its own: all of its `must`, none of its `mustNot`. */
  ghost predicate Means(t: Translated, d: Doc, e: Engine) {
    AllMatch(t.must, d, e) && !AnyMatch(t.mustNot, d, e)
  }

  function Clause(must: seq<Query>, mustNot: seq<Query>): Query {
    Bool([], must, mustNot, [])
  }

  /** `to_clauses`: nothing, one bare clause, or everything wrapped into one bool. */
  function ToClauses(t: Translated): (c: seq<Query>)
    ensures |c| <= 1 && (c == [] <==> t.must == [] && t.mustNot == [])
  {
    if t.must == [] && t.mustNot == [] then []
    else if t.mustNot == [] then
      if |t.must| == 1 then t.must else [Clause(t.must, [])]
    else [Clause(t.must, t.mustNot)]
  }

  /** The one clause a filter contributes carries its whole meaning. */
  lemma ClausesAtomic(t: Translated, d: Doc, e: Engine)
    ensures ToClauses(t) != [] ==> (Matches(ToClauses(t)[0], d, e) <==> Means(t, d, e))
    ensures ToClauses(t) == [] ==> Means(t, d, e)
  {
    if |t.must| == 1 { assert AllMatch(t.must, d, e) <==> Matches(t.must[0], d, e); }
  }

  // ---------- the whole query

  datatype Plan = Plan(conj: bool, translated: seq<Translated>)

  function Flat(ts: seq<Translated>): seq<Query> {
    if ts == [] then [] else Flat(ts[..|ts| - 1]) + ToClauses(ts[|ts| - 1])
  }

  /** `to_query`: the knowledge-base scope, and the filters under one inner bool. */
  function ToQuery(p: Plan, kbs: seq<string>): Query {
    if p.translated == [] then Bool([Kb(kbs)], [], [], [])
    else
      var clauses := Flat(p.translated);
      var inner := if p.conj then Bool([], clauses, [], []) else Bool([], [], [], clauses);
      Bool([Kb(kbs), inner], [], [], [])
  }

  ghost predicate EmptyFilter(t: Translated) {
    t.must == [] && t.mustNot == []
  }

  ghost predicate AllMean(ts: seq<Translated>, d: Doc, e: Engine) {
    forall k :: 0 <= k < |ts| ==> Means(ts[k], d, e)
  }

  /** Some filter that is not empty holds. */
  ghost predicate SomeMean(ts: seq<Translated>, d: Doc, e: Engine) {
    exists k :: 0 <= k < |ts| && !EmptyFilter(ts[k]) && Means(ts[k], d, e)
  }

  lemma {:induction false} FlatMeans(ts: seq<Translated>, d: Doc, e: Engine)
    ensures AllMatch(Flat(ts), d, e) <==> AllMean(ts, d, e)
    ensures AnyMatch(Flat(ts), d, e) <==> SomeMean(ts, d, e)
    decreases |ts|
  {
    hide Means, ToClauses, Matches, EmptyFilter;
    if ts == [] {
      assert Flat(ts) == [];
    } else {
      var init, last := ts[..|ts| - 1], ts[|ts| - 1];
      FlatMeans(init, d, e);
      assert ts == init + [last];
      hide AllMatch, AnyMatch, AllMean, SomeMean;
      ClausesAtomic(last, d, e);
      ClausesSnoc(Flat(init), ToClauses(last), d, e);
      ClausesEmpty(last);
      MeanSnoc(init, last, d, e);
    }
  }

  lemma {:induction false} FlatEmpty(ts: seq<Translated>)
    ensures Flat(ts) == [] <==> forall k :: 0 <= k < |ts| ==> EmptyFilter(ts[k])
    decreases |ts|
  {
    hide EmptyFilter, ToClauses;
    if ts == [] {
    } else {
      FlatEmpty(ts[..|ts| - 1]);
      ClausesEmpty(ts[|ts| - 1]);
    }
  }

  lemma ClausesEmpty(t: Translated)
    ensures ToClauses(t) == [] <==> EmptyFilter(t)
  {
  }

  lemma ClausesSnoc(a: seq<Query>, b: seq<Query>, d: Doc, e: Engine)
    requires |b| <= 1
    ensures AllMatch(a + b, d, e) <==> AllMatch(a, d, e) && (b == [] || Matches(b[0], d, e))
    ensures AnyMatch(a + b, d, e) <==> AnyMatch(a, d, e) || (b != [] && Matches(b[0], d, e))
  {
    hide Matches;
    if AllMatch(a + b, d, e) {
      assert forall i :: 0 <= i < |a| ==> (a + b)[i] == a[i];
      if b != [] { assert (a + b)[|a|] == b[0]; }
    }
    if AnyMatch(a, d, e) {
      var i :| 0 <= i < |a| && Matches(a[i], d, e);
      assert (a + b)[i] == a[i];
    }
    if b != [] && Matches(b[0], d, e) { assert (a + b)[|a|] == b[0]; }
  }

  lemma MeanSnoc(ts: seq<Translated>, t: Translated, d: Doc, e: Engine)
    ensures AllMean(ts + [t], d, e) <==> AllMean(ts, d, e) && Means(t, d, e)
    ensures SomeMean(ts + [t], d, e) <==> SomeMean(ts, d, e) || (!EmptyFilter(t) && Means(t, d, e))
  {
    hide Means, EmptyFilter;
    var all := ts + [t];
    if AllMean(all, d, e) {
      assert forall k :: 0 <= k < |ts| ==> all[k] == ts[k];
      assert all[|ts|] == t;
    }
    if SomeMean(ts, d, e) {
      var k :| 0 <= k < |ts| && !EmptyFilter(ts[k]) && Means(ts[k], d, e);
      assert all[k] == ts[k];
    }
    if !EmptyFilter(t) && Means(t, d, e) { assert all[|ts|] == t; }
  }

  /** The rendered query matches exactly the documents in scope that satisfy the filters: all
      of them under "and", some non-empty one under "or". */
  lemma QueryMeans(p: Plan, kbs: seq<string>, d: Doc, e: Engine)
    ensures Matches(ToQuery(p, kbs), d, e) <==>
            d.kb in kbs && (if p.conj then AllMean(p.translated, d, e)
                            else SomeMean(p.translated, d, e) || forall k :: 0 <= k < |p.translated| ==>
                                EmptyFilter(p.translated[k]))
  {
    var ts := p.translated;
    FlatMeans(ts, d, e);
    FlatEmpty(ts);
    hide Means, EmptyFilter, Flat;
    BoolFilter(Kb(kbs), d, e);
    if ts != [] {
      var clauses := Flat(ts);
      var inner := if p.conj then Bool([], clauses, [], []) else Bool([], [], [], clauses);
      BoolScope(Kb(kbs), inner, d, e);
      BoolInner(clauses, d, e);
    }
  }

  lemma BoolFilter(q: Query, d: Doc, e: Engine)
    ensures Matches(Bool([q], [], [], []), d, e) <==> Matches(q, d, e)
  {
    assert AllMatch([q], d, e) <==> Matches([q][0], d, e);
  }

  lemma BoolScope(a: Query, b: Query, d: Doc, e: Engine)
    ensures Matches(Bool([a, b], [], [], []), d, e) <==> Matches(a, d, e) && Matches(b, d, e)
  {
    if AllMatch([a, b], d, e) { assert Matches([a, b][0], d, e) && Matches([a, b][1], d, e); }
  }

  lemma BoolInner(clauses: seq<Query>, d: Doc, e: Engine)
    ensures Matches(Bool([], clauses, [], []), d, e) <==> AllMatch(clauses, d, e)
    ensures Matches(Bool([], [], [], clauses), d, e) <==> clauses == [] || AnyMatch(clauses, d, e)
  {
  }

  // ---------- the translator

  /** Python literal parsing, trimming and date recognition, left abstract; `None` stands for a
      refused value. */
  datatype Coercions = Coercions(scalar: Value -> Option<Scalar>, bound: Value -> Option<Scalar>,
      members: Value -> Option<seq<Scalar>>)

  function SameOrNumeric(k: string, s: Scalar): Query {
    match s case Word(t) => Same(k, t) case Num(n) => Numeric(k, n)
  }

  function SameOrNumericEach(k: string, ss: seq<Scalar>): (r: seq<Query>)
    ensures |r| == |ss|
  {
    seq(|ss|, i requires 0 <= i < |ss| => SameOrNumeric(k, ss[i]))
  }

  /** Membership: one `terms` for numbers only, else a bool of alternatives. */
  function AnyOf(k: string, ss: seq<Scalar>): Query {
    if forall i :: 0 <= i < |ss| ==> ss[i].Num? then AnyNumeric(k, ss)
    else Bool([], [], [], SameOrNumericEach(k, ss))
  }

  function Holds(k: string, t: string): Query {
    Wildcard(k, "*" + Escape(WILDCARD, t) + "*")
  }

  /** The branch for each operator; the key is known to be non-empty text. */
  function TranslateOp(op: Op, k: string, v: Value, co: Coercions): (r: Result<Translated>)
    ensures r.Ok? ==> r.value.must != []
  {
    match op
    case Empty => Ok(Translated([Bool([], [], [], [Clause([], [Exists(k)]), Exact(k, "")])], []))
    case NotEmpty => Ok(Translated([Exists(k)], [Exact(k, "")]))
    case Eq => (match co.scalar(v) case None => Err(BadValue) case Some(s) => Ok(Translated([SameOrNumeric(k, s)], [])))
    case Ne => (match co.scalar(v) case None => Err(BadValue)
        case Some(s) => Ok(Translated([Exists(k)], [SameOrNumeric(k, s)])))
    case In => (match co.members(v) case None => Err(BadValue) case Some(ss) => Ok(Translated([AnyOf(k, ss)], [])))
    case NotIn => (match co.members(v) case None => Err(BadValue)
        case Some(ss) => Ok(Translated([Exists(k)], [AnyOf(k, ss)])))
    case Contains => (match CoerceString(v) case None => Err(BadValue)
        case Some(t) => Ok(Translated([Holds(k, t)], [])))
    case NotContains => (match CoerceString(v) case None => Err(BadValue)
        case Some(t) => Ok(Translated([Exists(k)], [Holds(k, t)])))
    case StartWith => (match CoerceString(v) case None => Err(BadValue)
        case Some(t) => Ok(Translated([Prefix(k, t)], [])))
    case EndWith => (match CoerceString(v) case None => Err(BadValue)
        case Some(t) => Ok(Translated([Wildcard(k, "*" + Escape(WILDCARD, t))], [])))
    case Unsupported => Err(UnknownOp)
    case _ => (match co.bound(v) case None => Err(BadValue)
        case Some(s) => Ok(Translated([Exists(k), Range(k, op, s)], [])))
  }

  /** `translate`: the key is checked first, then the operator, then the value. */
  function Translate(f: Filter, co: Coercions): (r: Result<Translated>)
    ensures r.Ok? ==> !EmptyFilter(r.value) && f.key.Text? && f.key.s != ""
    ensures !f.key.Text? || f.key.s == "" ==> r == Err(NoKey)
  {
    if !f.key.Text? || f.key.s == "" then Err(NoKey)
    else if f.op.Unsupported? then Err(UnknownOp)
    else TranslateOp(f.op, f.key.s, f.value, co)
  }

  /** Which text filters are refused: those without a key or operator, and searches for nothing,
      for a list or for the empty text. A number is searched as the text it prints as. */
  lemma TextTranslated(f: Filter, co: Coercions, shown: string)
    requires IsTextOp(f.op)
    ensures Translate(f, co).Ok? <==>
            f.key.Text? && f.key.s != "" && f.op != Unsupported
            && (f.op in {Empty, NotEmpty} || (f.value in {Text(Shown(f.value)), Number(Shown(f.value))}
                && Shown(f.value) != ""))
    ensures Translate(f.(value := Number(shown)), co) == Translate(f.(value := Text(shown)), co)
  {
    var v := f.value;
    match v {
      case Null =>
      case Text(s) => assert CoerceString(v) == if s == "" then None else Some(s);
      case Number(s) => assert CoerceString(v) == if s == "" then None else Some(s);
      case Items(_) =>
    }
    assert CoerceString(Number(shown)) == CoerceString(Text(shown));
  }

  /** Which filters are compiled at all: those with a key, a known operator, and a value of the kind
      that the operator takes. */
  lemma AcceptedExactly(f: Filter, co: Coercions)
    ensures Translate(f, co).Ok? <==>
            f.key.Text? && f.key.s != "" &&
            match f.op
            case Unsupported => false
            case Empty | NotEmpty => true
            case Contains | NotContains | StartWith | EndWith =>
              !f.value.Null? && !f.value.Items? && Shown(f.value) != ""
            case Eq | Ne => co.scalar(f.value).Some?
            case In | NotIn => co.members(f.value).Some?
            case Gt | Lt | Ge | Le => co.bound(f.value).Some?
  {
    hide Escape;
  }

  /** `plan_pushdown`: all filters in turn, or the refusal of the first that has none. */
  method PlanPushdown(fs: seq<Filter>, logic: string, co: Coercions) returns (r: Result<Plan>)
    ensures r.Ok? <==> logic in {"and", "or"} && forall k :: 0 <= k < |fs| ==> Translate(fs[k], co).Ok?
    ensures r.Ok? ==> Planned(r.value, fs, logic == "and", co)
    ensures r.Err? && logic in {"and", "or"} ==>
              exists k :: 0 <= k < |fs| && Translate(fs[k], co) == Err(r.why) && forall j :: 0 <= j < k ==>
                  Translate(fs[j], co).Ok?
  {
    if logic !in {"and", "or"} {
      return Err(BadLogic);
    }
    var ts := [];
    for k := 0 to |fs|
      invariant |ts| == k && forall j :: 0 <= j < k ==> Translate(fs[j], co) == Ok(ts[j])
    {
      match Translate(fs[k], co) {
        case Err(why) => return Err(why);
        case Ok(t) => ts := ts + [t];
      }
    }
    return Ok(Plan(logic == "and", ts));
  }

  ghost predicate Planned(p: Plan, fs: seq<Filter>, conj: bool, co: Coercions) {
    && p.conj == conj && |p.translated| == |fs|
    && forall k :: 0 <= k < |fs| ==> Translate(fs[k], co) == Ok(p.translated[k])
  }

  /** `is_pushdown_supported`: the cheap check before translation. */
  method IsPushdownSupported(fs: seq<Filter>) returns (ok: bool)
    ensures ok <==> forall k :: 0 <= k < |fs| ==>
                fs[k].op !in {Ne, NotIn, Unsupported} && fs[k].key.Text? && fs[k].key.s != ""
  {
    for k := 0 to |fs|
      invariant forall j :: 0 <= j < k ==> Pushable(fs[j])
    {
      if fs[k].op.Unsupported? || fs[k].op in {Ne, NotIn} || !fs[k].key.Text? || fs[k].key.s == "" {
        assert !Pushable(fs[k]);
        return false;
      }
    }
    return true;
  }

  predicate Pushable(f: Filter) {
    f.op !in {Ne, NotIn, Unsupported} && f.key.Text? && f.key.s != ""
  }

  /** A planned "or" never loses a filter: no translated filter is empty. */
  lemma PlannedMeans(p: Plan, fs: seq<Filter>, conj: bool, co: Coercions, kbs: seq<string>, d: Doc, e: Engine)
    requires Planned(p, fs, conj, co) && fs != []
    ensures Matches(ToQuery(p, kbs), d, e) <==>
            d.kb in kbs && if conj then forall k :: 0 <= k < |fs| ==> Means(p.translated[k], d, e)
                           else exists k :: 0 <= k < |fs| && Means(p.translated[k], d, e)
  {
    QueryMeans(p, kbs, d, e);
    hide Means, ToQuery, Translate;
    var ts := p.translated;
    forall k | 0 <= k < |ts| ensures !EmptyFilter(ts[k]) { TranslatedFull(fs[k], co); }
    if !conj {
      assert !EmptyFilter(ts[0]);
    }
  }

  lemma TranslatedFull(f: Filter, co: Coercions)
    ensures Translate(f, co).Ok? ==> !EmptyFilter(Translate(f, co).value)
  {
  }

  /** Bare concatenation of clauses would be wrong: a filter with two `must` parts would
      match an "or" by one half. */
  lemma HalfMatches(k: string, op: Op, b: Scalar, d: Doc, e: Engine)
    requires Has(d, k, "x") && forall v :: Has(d, k, v) ==> !e.range(v, op, b)
    ensures var t := Translated([Exists(k), Range(k, op, b)], []);
            Matches(Bool([], [], [], t.must), d, e) && !Means(t, d, e) && !Matches(ToClauses(t)[0], d, e)
  {
    var t := Translated([Exists(k), Range(k, op, b)], []);
    assert Matches(t.must[0], d, e) && !Matches(t.must[1], d, e);
    ClausesAtomic(t, d, e);
  }
}
