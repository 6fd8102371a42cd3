/** What a compiled filter asks of a document, operator by operator, without queries: some value of
    the field, compared with what the filter's value was coerced to. */
module EsMeaning {
  import opened Glob
  import opened MetaValues
  import opened MetaFilter
  import opened EsFilter

  // ---------- what one value has to be

  /** Is `t` found in `v` where the operator looks for it, both lower-cased by `fold`? */
  predicate Hit(op: Op, t: string, v: string, fold: string -> string) {
    match op
    case Contains | NotContains => Infix(fold(t), fold(v))
    case StartWith => StartsWith(fold(v), fold(t))
    case EndWith => EndsWith(fold(v), fold(t))
    case _ => false
  }

  ghost predicate SomeHit(d: Doc, k: string, op: Op, t: string, fold: string -> string) {
    exists v :: Has(d, k, v) && Hit(op, t, v, fold)
  }

  ghost predicate SomeValue(d: Doc, k: string) {
    exists v :: Has(d, k, v)
  }

  /** A stored value is the word, up to ASCII case, or compares equal to the number. */
  ghost predicate Is(v: string, s: Scalar, e: Engine) {
    match s
    case Word(t) => Fold(v) == Fold(t)
    case Num(n) => e.numeric(v, n)
  }

  ghost predicate SomeIs(d: Doc, k: string, s: Scalar, e: Engine) {
    exists v :: Has(d, k, v) && Is(v, s, e)
  }

  /** Some value is one of the members, words and numbers alike. */
  ghost predicate SomeMember(d: Doc, k: string, ss: seq<Scalar>, e: Engine) {
    exists i :: 0 <= i < |ss| && SomeIs(d, k, ss[i], e)
  }

  /** Some value lies on the side of the bound that the operator names. */
  ghost predicate SomeWithin(d: Doc, k: string, op: Op, bound: Scalar, e: Engine) {
    exists v :: Has(d, k, v) && e.range(v, op, bound)
  }

  /** What the filter asks of a document. A negative filter asks for a value, and for none that the
      positive one would find. */
  ghost predicate Wanted(f: Filter, co: Coercions, d: Doc, e: Engine)
    requires f.key.Text?
  {
    var k, found := f.key.s, SomeHit(d, f.key.s, f.op, Shown(f.value), Fold);
    match f.op
    case Contains | StartWith | EndWith => found
    case NotContains => SomeValue(d, k) && !found
    case Empty => !SomeValue(d, k) || Has(d, k, "")
    case NotEmpty => SomeValue(d, k) && !Has(d, k, "")
    case Eq => co.scalar(f.value).Some? && SomeIs(d, k, co.scalar(f.value).value, e)
    case Ne => co.scalar(f.value).Some? && SomeValue(d, k) && !SomeIs(d, k, co.scalar(f.value).value, e)
    case In => co.members(f.value).Some? && SomeMember(d, k, co.members(f.value).value, e)
    case NotIn => co.members(f.value).Some? && SomeValue(d, k) && !SomeMember(d, k, co.members(f.value).value, e)
    case Gt | Lt | Ge | Le => co.bound(f.value).Some? && SomeWithin(d, k, f.op, co.bound(f.value).value, e)
    case Unsupported => false
  }

  // ---------- each compiled operator means that

  lemma MeansOne(q: Query, d: Doc, e: Engine)
    ensures Means(Translated([q], []), d, e) <==> Matches(q, d, e)
    ensures forall r :: Means(Translated([q], [r]), d, e) <==> Matches(q, d, e) && !Matches(r, d, e)
  {
    assert AllMatch([q], d, e) <==> Matches([q][0], d, e);
    forall r ensures AnyMatch([r], d, e) <==> Matches(r, d, e) {
      if Matches(r, d, e) { assert Matches([r][0], d, e); }
    }
    assert !AnyMatch([], d, e);
  }

  lemma HoldsMeans(d: Doc, e: Engine, k: string, op: Op, t: string)
    requires op.Contains? || op.NotContains?
    ensures Matches(Holds(k, t), d, e) <==> SomeHit(d, k, op, t, Fold)
  {
    forall v ensures Match(WILDCARD, "*" + Escape(WILDCARD, t) + "*", v) <==> Hit(op, t, v, Fold) {
      MatchesInfix(WILDCARD, t, v);
    }
  }

  lemma EndMeans(d: Doc, e: Engine, k: string, t: string)
    ensures Matches(Wildcard(k, "*" + Escape(WILDCARD, t)), d, e) <==> SomeHit(d, k, EndWith, t, Fold)
  {
    forall v ensures Match(WILDCARD, "*" + Escape(WILDCARD, t), v) <==> Hit(EndWith, t, v, Fold) {
      MatchesEnd(WILDCARD, t, v);
    }
  }

  lemma EmptyMeans(d: Doc, e: Engine, k: string)
    ensures Matches(Bool([], [], [], [Clause([], [Exists(k)]), Exact(k, "")]), d, e) <==>
        !SomeValue(d, k) || Has(d, k, "")
  {
    var a, b := Clause([], [Exists(k)]), Exact(k, "");
    assert AnyMatch([Exists(k)], d, e) <==> Matches([Exists(k)][0], d, e);
    assert Matches(a, d, e) <==> !SomeValue(d, k);
    if Matches(a, d, e) { assert Matches([a, b][0], d, e); }
    if Matches(b, d, e) { assert Matches([a, b][1], d, e); }
  }

  lemma PrefixMeans(d: Doc, e: Engine, k: string, t: string)
    ensures Matches(Prefix(k, t), d, e) <==> SomeHit(d, k, StartWith, t, Fold)
  {
  }

  lemma SameMeans(d: Doc, e: Engine, k: string, s: Scalar)
    ensures Matches(SameOrNumeric(k, s), d, e) <==> SomeIs(d, k, s, e)
  {
    hide Has;
  }

  /** A list of numbers and a list with words among them are compiled differently and mean the same:
      some value is some member. */
  lemma AnyOfMeans(d: Doc, e: Engine, k: string, ss: seq<Scalar>)
    ensures Matches(AnyOf(k, ss), d, e) <==> SomeMember(d, k, ss, e)
  {
    hide Has;
    if forall i :: 0 <= i < |ss| ==> ss[i].Num? {
      assert AnyOf(k, ss) == AnyNumeric(k, ss);
      if SomeMember(d, k, ss, e) {
        var i :| 0 <= i < |ss| && SomeIs(d, k, ss[i], e);
        var v :| Has(d, k, v) && Is(v, ss[i], e);
        assert ss[i].Num? && e.numeric(v, ss[i].shown);
      }
      if Matches(AnyNumeric(k, ss), d, e) {
        var v, i :| Has(d, k, v) && 0 <= i < |ss| && ss[i].Num? && e.numeric(v, ss[i].shown);
        assert Is(v, ss[i], e);
      }
    } else {
      var each := SameOrNumericEach(k, ss);
      BoolInner(each, d, e);
      forall i | 0 <= i < |ss| ensures Matches(each[i], d, e) <==> SomeIs(d, k, ss[i], e) {
        SameMeans(d, e, k, ss[i]);
      }
      hide SomeIs, Matches;
      if SomeMember(d, k, ss, e) {
        var i :| 0 <= i < |ss| && SomeIs(d, k, ss[i], e);
        assert Matches(each[i], d, e);
      }
    }
  }

  /** The range part, next to the test that the field is there at all. */
  lemma RangeMeans(d: Doc, e: Engine, k: string, op: Op, b: Scalar)
    ensures Means(Translated([Exists(k), Range(k, op, b)], []), d, e) <==> SomeWithin(d, k, op, b, e)
  {
    hide Has;
    var must := [Exists(k), Range(k, op, b)];
    assert AllMatch(must, d, e) <==> Matches(must[0], d, e) && Matches(must[1], d, e);
  }

  /** What each compiled operator asks of a document, for every operator. */
  lemma CompiledMeans(f: Filter, co: Coercions, d: Doc, e: Engine)
    requires Translate(f, co).Ok?
    ensures Means(Translate(f, co).value, d, e) <==> Wanted(f, co, d, e)
  {
    var k, t := f.key.s, Shown(f.value);
    hide Means, SomeHit, Has, Match, Escape, SomeIs, SomeMember, SomeWithin, AnyOf, SameOrNumeric;
    match f.op {
      case Contains => MeansOne(Holds(k, t), d, e); HoldsMeans(d, e, k, f.op, t);
      case NotContains => MeansOne(Exists(k), d, e); HoldsMeans(d, e, k, f.op, t);
      case StartWith => MeansOne(Prefix(k, t), d, e); PrefixMeans(d, e, k, t);
      case EndWith => MeansOne(Wildcard(k, "*" + Escape(WILDCARD, t)), d, e); EndMeans(d, e, k, t);
      case Empty => MeansOne(Bool([], [], [], [Clause([], [Exists(k)]), Exact(k, "")]), d, e); EmptyMeans(d, e, k);
      case NotEmpty => MeansOne(Exists(k), d, e);
      case Eq => EqualMeans(d, e, k, co.scalar(f.value).value);
      case Ne => EqualMeans(d, e, k, co.scalar(f.value).value);
      case In => MemberMeans(d, e, k, co.members(f.value).value);
      case NotIn => MemberMeans(d, e, k, co.members(f.value).value);
      case Gt | Lt | Ge | Le => RangeMeans(d, e, k, f.op, co.bound(f.value).value);
    }
  }

  lemma EqualMeans(d: Doc, e: Engine, k: string, s: Scalar)
    ensures Means(Translated([SameOrNumeric(k, s)], []), d, e) <==> SomeIs(d, k, s, e)
    ensures Means(Translated([Exists(k)], [SameOrNumeric(k, s)]), d, e) <==> SomeValue(d, k) && !SomeIs(d, k, s, e)
  {
    hide Means, Has, SameOrNumeric, SomeIs;
    MeansOne(SameOrNumeric(k, s), d, e);
    MeansOne(Exists(k), d, e);
    SameMeans(d, e, k, s);
  }

  lemma MemberMeans(d: Doc, e: Engine, k: string, ss: seq<Scalar>)
    ensures Means(Translated([AnyOf(k, ss)], []), d, e) <==> SomeMember(d, k, ss, e)
    ensures Means(Translated([Exists(k)], [AnyOf(k, ss)]), d, e) <==> SomeValue(d, k) && !SomeMember(d, k, ss, e)
  {
    hide Means, Has, AnyOf, SomeMember;
    MeansOne(AnyOf(k, ss), d, e);
    MeansOne(Exists(k), d, e);
    AnyOfMeans(d, e, k, ss);
  }

  // ---------- the whole query

  /** A planned query finds exactly the documents in scope of which all filters, or some, want what the
      document has. */
  lemma PlannedWanted(p: Plan, fs: seq<Filter>, conj: bool, co: Coercions, kbs: seq<string>, d: Doc, e: Engine)
    requires Planned(p, fs, conj, co) && fs != []
    ensures forall k :: 0 <= k < |fs| ==> fs[k].key.Text?
    ensures Matches(ToQuery(p, kbs), d, e) <==>
            d.kb in kbs && if conj then forall k :: 0 <= k < |fs| ==> Wanted(fs[k], co, d, e)
                           else exists k :: 0 <= k < |fs| && Wanted(fs[k], co, d, e)
  {
    PlannedMeans(p, fs, conj, co, kbs, d, e);
    hide Means, ToQuery, Wanted, Matches;
    forall k | 0 <= k < |fs| ensures fs[k].key.Text? && (Means(p.translated[k], d, e) <==> Wanted(fs[k], co, d, e)) {
      assert Translate(fs[k], co) == Ok(p.translated[k]);
      CompiledMeans(fs[k], co, d, e);
    }
  }
}
