/** When pushing metadata filters down to Elasticsearch gives the documents that in-memory
    evaluation gives, and exactly when it does not. */
module EsAgreement {
  import opened Glob
  import opened MetaValues
  import opened MetaFilter
  import opened EsFilter
  import opened EsMeaning

  // ---------- both meanings of one filter

  /** In memory: some value of the document meets the filter. */
  ghost predicate MemoryHit(f: Filter, d: Doc, py: Python)
    requires f.key.Text?
  {
    exists v :: Has(d, f.key.s, v) && TextHit(f.op, py.lower(v), Lowered(f.value, py), py)
  }

  ghost predicate SomeMiss(d: Doc, k: string, op: Op, t: string, fold: string -> string) {
    exists v :: Has(d, k, v) && !Hit(op, t, v, fold)
  }

  ghost predicate SomeFilled(d: Doc, k: string) {
    exists v :: Has(d, k, v) && v != ""
  }

  /** The buckets built from a document list select a document exactly when one of its own
      values meets the filter. */
  lemma MemoryMeans(docs: seq<Doc>, m: Metas, f: Filter, py: Python, d: Doc)
    requires forall k, v, id :: Listed(m, k, v, id) <==> SomeDocHas(docs, id, k, v)
    requires DistinctIds(docs) && d in docs && f.key.Text? && IsTextOp(f.op) && LowerOk(py)
    ensures d.id in FilterIds(m, f, py) <==> MemoryHit(f, d, py)
  {
    var k := f.key.s;
    hide SomeDocHas, Has, TextHit, Lowered, IsTextOp, Selected, DistinctIds, InBuckets;
    forall v ensures Listed(m, k, v, d.id) <==> Has(d, k, v) { OwnValues(docs, d, k, v); }
    if k in m {
      SelectedText(m[k], f.op, f.value, py, d.id);
      assert forall v :: Listed(m, k, v, d.id) <==> InBuckets(m[k], v, d.id);
    } else {
      forall v ensures !Has(d, k, v) { assert !Listed(m, k, v, d.id); }
    }
  }

  /** Can memory search for the value at all? "contains" asks for text, where "start with" and
      "end with" take any value as text. */
  predicate Searches(f: Filter) {
    f.value.Text? || f.op in {StartWith, EndWith}
  }

  /** The documents the index finds and memory does not: those where a search raises; those
      where only ASCII lower-casing sees the searched text (or, for a negative search, only
      `str.lower` sees it, in every value); "empty" on a document without the key. */
  ghost predicate Lost(f: Filter, d: Doc, py: Python)
    requires f.key.Text?
  {
    var k, t := f.key.s, Shown(f.value);
    match f.op
    case Contains | StartWith | EndWith =>
      SomeHit(d, k, f.op, t, Fold) && (!Searches(f) || !SomeHit(d, k, f.op, t, py.lower))
    case NotContains =>
      SomeValue(d, k) && !SomeHit(d, k, f.op, t, Fold) && (!Searches(f) || !SomeMiss(d, k, f.op, t, py.lower))
    case Empty => !SomeValue(d, k)
    case _ => false
  }

  /** The documents memory finds and the index does not: those where only `str.lower` sees the
      searched text; for a negative search, those with a value in which ASCII lower-casing sees
      it and a value, perhaps another, in which `str.lower` does not; "not empty" on a field
      that also holds the empty text. */
  ghost predicate Gained(f: Filter, d: Doc, py: Python)
    requires f.key.Text?
  {
    var k, t := f.key.s, Shown(f.value);
    match f.op
    case Contains | StartWith | EndWith =>
      Searches(f) && !SomeHit(d, k, f.op, t, Fold) && SomeHit(d, k, f.op, t, py.lower)
    case NotContains => Searches(f) && SomeHit(d, k, f.op, t, Fold) && SomeMiss(d, k, f.op, t, py.lower)
    case NotEmpty => SomeFilled(d, k) && Has(d, k, "")
    case _ => false
  }

  /** The documents on which the two evaluations of a translatable text filter part. */
  ghost predicate Diverges(f: Filter, d: Doc, py: Python)
    requires f.key.Text?
  {
    Lost(f, d, py) || Gained(f, d, py)
  }

  lemma MemoryParts(f: Filter, d: Doc, py: Python)
    requires f.key.Text? && LowerOk(py)
    ensures var k, t := f.key.s, Shown(f.value);
      match f.op
      case Contains | StartWith | EndWith => MemoryHit(f, d, py) <==> Searches(f) && SomeHit(d, k, f.op, t, py.lower)
      case NotContains => MemoryHit(f, d, py) <==> Searches(f) && SomeMiss(d, k, f.op, t, py.lower)
      case Empty => MemoryHit(f, d, py) <==> Has(d, k, "")
      case NotEmpty => MemoryHit(f, d, py) <==> SomeFilled(d, k)
      case _ => true
  {
    hide Has, Infix;
  }

  /** The two evaluations of a translatable text filter agree on a document exactly when it
      does not diverge on it, and what each of them misses is stated exactly. */
  lemma AgreeExactly(f: Filter, co: Coercions, d: Doc, e: Engine, py: Python)
    requires Translate(f, co).Ok? && IsTextOp(f.op) && LowerOk(py)
    ensures Means(Translate(f, co).value, d, e) && !MemoryHit(f, d, py) <==> Lost(f, d, py)
    ensures MemoryHit(f, d, py) && !Means(Translate(f, co).value, d, e) <==> Gained(f, d, py)
    ensures (Means(Translate(f, co).value, d, e) <==> MemoryHit(f, d, py)) <==> !Diverges(f, d, py)
  {
    CompiledMeans(f, co, d, e);
    MemoryParts(f, d, py);
    ValueKinds(d, f.key.s, f.op, Shown(f.value), py.lower);
    hide Means, MemoryHit, SomeHit, SomeMiss, SomeFilled, SomeValue, Has, Translate, Infix;
  }

  lemma ValueKinds(d: Doc, k: string, op: Op, t: string, fold: string -> string)
    ensures SomeValue(d, k) <==> SomeHit(d, k, op, t, fold) || SomeMiss(d, k, op, t, fold)
    ensures SomeValue(d, k) <==> SomeFilled(d, k) || Has(d, k, "")
  {
    hide Has, Hit;
    if SomeValue(d, k) {
      var v :| Has(d, k, v);
      assert Hit(op, t, v, fold) || !Hit(op, t, v, fold);
    }
  }

  // ---------- text on which both lower-casings are one

  /** `str.lower` changes only ASCII letters of the searched and the stored text: so it is for
      text in lower case, and for scripts without case. */
  ghost predicate Alike(f: Filter, d: Doc, py: Python)
    requires f.key.Text?
  {
    && py.lower(Shown(f.value)) == Fold(Shown(f.value))
    && forall v :: Has(d, f.key.s, v) ==> py.lower(v) == Fold(v)
  }

  lemma AsciiAlike(f: Filter, d: Doc, py: Python)
    requires f.key.Text? && LowerOk(py)
    requires Ascii(Shown(f.value)) && forall v :: Has(d, f.key.s, v) ==> Ascii(v)
    ensures Alike(f, d, py)
  {
    hide Has;
  }

  /** The divergences that have nothing to do with letters: a search for a number, which raises
      in memory; a negative search over a field that has values of both kinds; emptiness. */
  ghost predicate Mixed(f: Filter, d: Doc)
    requires f.key.Text?
  {
    var k, t := f.key.s, Shown(f.value);
    match f.op
    case Contains => !f.value.Text? && SomeHit(d, k, f.op, t, Fold)
    case NotContains =>
      if f.value.Text? then SomeHit(d, k, f.op, t, Fold) && SomeMiss(d, k, f.op, t, Fold)
      else SomeValue(d, k) && !SomeHit(d, k, f.op, t, Fold)
    case Empty => !SomeValue(d, k)
    case NotEmpty => SomeFilled(d, k) && Has(d, k, "")
    case _ => false
  }

  lemma AlikeHits(f: Filter, d: Doc, py: Python)
    requires f.key.Text? && Alike(f, d, py)
    ensures var k, t := f.key.s, Shown(f.value);
            (SomeHit(d, k, f.op, t, py.lower) <==> SomeHit(d, k, f.op, t, Fold))
            && (SomeMiss(d, k, f.op, t, py.lower) <==> SomeMiss(d, k, f.op, t, Fold))
  {
    hide Has, Infix;
  }

  /** On such text the evaluations part exactly where the values are mixed, and there, except
      for numbers and "empty", it is the index that misses documents. */
  lemma AlikeDiverges(f: Filter, d: Doc, py: Python)
    requires f.key.Text? && Alike(f, d, py)
    ensures Diverges(f, d, py) <==> Mixed(f, d)
    ensures Lost(f, d, py) <==> Mixed(f, d) && (!Searches(f) || f.op == Empty) && f.op != NotEmpty
  {
    AlikeHits(f, d, py);
    ValueKinds(d, f.key.s, f.op, Shown(f.value), Fold);
    hide SomeHit, SomeMiss, SomeFilled, SomeValue, Has, Alike;
  }

  // ---------- the whole request

  ghost predicate TextRequest(fs: seq<Filter>) {
    forall k :: 0 <= k < |fs| ==> IsTextOp(fs[k].op)
  }

  /** Every document in scope on which no filter diverges is found by both or by neither, for
      any number of filters, under "and" and under "or", on fields with any number of values. */
  lemma PushdownAgrees(docs: seq<Doc>, m: Metas, fs: seq<Filter>, p: Plan, conj: bool, kbs: seq<string>,
                       co: Coercions, py: Python, d: Doc, e: Engine)
    requires forall k, v, id :: Listed(m, k, v, id) <==> SomeDocHas(docs, id, k, v)
    requires DistinctIds(docs) && d in docs && d.kb in kbs && LowerOk(py)
    requires Planned(p, fs, conj, co) && TextRequest(fs) && fs != []
    requires forall k :: 0 <= k < |fs| ==> fs[k].key.Text? && !Diverges(fs[k], d, py)
    ensures Matches(ToQuery(p, kbs), d, e) <==> Chosen(m, fs, conj, py, d.id)
  {
    PlannedMeans(p, fs, conj, co, kbs, d, e);
    hide Means, Matches, ToQuery, Translate, FilterIds, Listed, SomeDocHas, Diverges, MemoryHit, DistinctIds, LowerOk;
    forall k | 0 <= k < |fs| ensures Means(p.translated[k], d, e) <==> d.id in FilterIds(m, fs[k], py) {
      AgreeExactly(fs[k], co, d, e, py);
      MemoryMeans(docs, m, fs[k], py, d);
    }
  }

  ghost predicate Scoped(docs: seq<Doc>, kbs: seq<string>) {
    DistinctIds(docs) && forall d :: d in docs ==> d.kb in kbs
  }

  /** The two routes a request can take, side by side: the documents of the scope flattened and
      filtered in memory, and the query for the index. Where no filter diverges on a document
      both routes decide it alike. */
  method BothRoutes(docs: seq<Doc>, kbs: seq<string>, fs: seq<Filter>, logic: string, co: Coercions, py: Python)
    returns (ids: set<string>, query: Result<Query>)
    requires Scoped(docs, kbs) && LowerOk(py)
    ensures query.Ok? <==> logic in {"and", "or"} && forall k :: 0 <= k < |fs| ==> Translate(fs[k], co).Ok?
    ensures query.Ok? && fs != [] && TextRequest(fs) ==>
              forall d, e :: d in docs && (forall k :: 0 <= k < |fs| ==> fs[k].key.Text? && !Diverges(fs[k], d, py)) ==>
                (d.id in ids <==> Matches(query.value, d, e))
  {
    var m := Flatten(docs);
    ids := Evaluate(m, fs, logic == "and", py);
    var plan := PlanPushdown(fs, logic, co);
    match plan {
      case Err(why) => query := Err(why);
      case Ok(p) =>
        query := Ok(ToQuery(p, kbs));
        hide Matches, ToQuery, Diverges, Chosen, Listed, SomeDocHas, Planned, TextRequest, DistinctIds, Translate;
        if fs != [] && TextRequest(fs) {
          forall d, e: Engine | d in docs && (forall k :: 0 <= k < |fs| ==> fs[k].key.Text? && !Diverges(fs[k], d, py))
            ensures d.id in ids <==> Matches(query.value, d, e)
          {
            PushdownAgrees(docs, m, fs, p, logic == "and", kbs, co, py, d, e);
          }
        }
    }
  }

  /** Nothing the index finds is missed in memory if no filter loses the document. */
  lemma PushdownWithin(docs: seq<Doc>, m: Metas, fs: seq<Filter>, p: Plan, conj: bool, kbs: seq<string>,
                       co: Coercions, py: Python, d: Doc, e: Engine)
    requires forall k, v, id :: Listed(m, k, v, id) <==> SomeDocHas(docs, id, k, v)
    requires DistinctIds(docs) && d in docs && LowerOk(py)
    requires Planned(p, fs, conj, co) && TextRequest(fs) && fs != []
    requires forall k :: 0 <= k < |fs| ==> fs[k].key.Text? && !Lost(fs[k], d, py)
    ensures Matches(ToQuery(p, kbs), d, e) ==> Chosen(m, fs, conj, py, d.id)
  {
    PlannedMeans(p, fs, conj, co, kbs, d, e);
    hide Means, Matches, ToQuery, Translate, FilterIds, Listed, SomeDocHas, MemoryHit, DistinctIds, Lost, Gained,
        LowerOk;
    forall k | 0 <= k < |fs| && Means(p.translated[k], d, e) ensures d.id in FilterIds(m, fs[k], py) {
      AgreeExactly(fs[k], co, d, e, py);
      MemoryMeans(docs, m, fs[k], py, d);
    }
  }

  ghost predicate SingleValued(d: Doc, k: string) {
    forall v, w :: Has(d, k, v) && Has(d, k, w) ==> v == w
  }

  /** On single-valued fields a search for text diverges exactly when the two lower-casings
      disagree about the value. */
  lemma SingleValuedDiverges(f: Filter, d: Doc, py: Python)
    requires f.key.Text? && SingleValued(d, f.key.s) && f.value.Text? && f.op != Empty
    ensures Diverges(f, d, py) <==>
            exists v :: Has(d, f.key.s, v)
                        && Hit(f.op, Shown(f.value), v, Fold) != Hit(f.op, Shown(f.value), v, py.lower)
  {
    var k, t := f.key.s, Shown(f.value);
    hide Has, Infix;
    if SomeValue(d, k) {
      var v :| Has(d, k, v);
      assert forall w :: Has(d, k, w) ==> w == v;
      assert SomeHit(d, k, f.op, t, Fold) <==> Hit(f.op, t, v, Fold);
      assert SomeHit(d, k, f.op, t, py.lower) <==> Hit(f.op, t, v, py.lower);
      assert SomeMiss(d, k, f.op, t, py.lower) <==> !Hit(f.op, t, v, py.lower);
    }
  }

  /** So where both lower-casings treat the text alike, no search for text diverges there. */
  lemma SingleValuedAgrees(f: Filter, d: Doc, py: Python)
    requires f.key.Text? && SingleValued(d, f.key.s) && f.value.Text? && f.op != Empty && Alike(f, d, py)
    ensures !Diverges(f, d, py)
  {
    hide Has, Infix, Diverges;
    AlikeDiverges(f, d, py);
  }

  /** And on fields with any number of values, what the index finds by searching for such text is
      found in memory: negative filters only lose documents. */
  lemma AlikeWithin(docs: seq<Doc>, m: Metas, fs: seq<Filter>, p: Plan, conj: bool, kbs: seq<string>,
                    co: Coercions, py: Python, d: Doc, e: Engine)
    requires forall k, v, id :: Listed(m, k, v, id) <==> SomeDocHas(docs, id, k, v)
    requires DistinctIds(docs) && d in docs && LowerOk(py)
    requires Planned(p, fs, conj, co) && TextRequest(fs) && fs != []
    requires forall k :: 0 <= k < |fs| ==>
               fs[k].key.Text? && Alike(fs[k], d, py) && fs[k].op != Empty && (Searches(fs[k]) || fs[k].op == NotEmpty)
    ensures Matches(ToQuery(p, kbs), d, e) ==> Chosen(m, fs, conj, py, d.id)
  {
    hide Matches, ToQuery, Chosen, Listed, SomeDocHas, Planned, TextRequest, DistinctIds, LowerOk, Alike, Lost, Mixed;
    forall k | 0 <= k < |fs| ensures fs[k].key.Text? && !Lost(fs[k], d, py) { AlikeDiverges(fs[k], d, py); }
    PushdownWithin(docs, m, fs, p, conj, kbs, co, py, d, e);
  }

  // ---------- the differences, by example

  /** `all(not contains)` is not what the bucket loop computes: a document with one value that
      contains the text and one that does not is found in memory and not by the index. */
  lemma NotContainsDiffers(co: Coercions, e: Engine, py: Python)
    requires LowerOk(py)
    ensures var f := Filter(NotContains, Text("k"), Text("a"));
            var d := Doc("1", "kb", [Field("k", ["a", "b"])]);
            Translate(f, co).Ok? && MemoryHit(f, d, py) && !Means(Translate(f, co).value, d, e)
  {
    var f := Filter(NotContains, Text("k"), Text("a"));
    var d := Doc("1", "kb", [Field("k", ["a", "b"])]);
    assert d.fields[0].key == "k" && "a" in d.fields[0].values && "b" in d.fields[0].values;
    assert Has(d, "k", "a") && Has(d, "k", "b");
    assert Fold("a") == "a" && Fold("b") == "b" && Ascii("a") && Ascii("b");
    assert OccursAt("a", "a", 0) && Infix("a", "a");
    NotInside("a", "b");
    assert Hit(f.op, "a", "a", Fold) && !Hit(f.op, "a", "b", py.lower);
    assert SomeHit(d, "k", f.op, "a", Fold) && SomeMiss(d, "k", f.op, "a", py.lower);
    assert Translate(f, co).Ok? && Gained(f, d, py);
    hide Has, Translate, Means, MemoryHit, LowerOk, Gained;
    AgreeExactly(f, co, d, e, py);
  }

  lemma NotInside(a: string, b: string)
    requires |a| == |b| == 1 && a != b
    ensures !Infix(a, b)
  {
    forall i ensures !OccursAt(a, b, i) { if i == 0 { assert b[0..1] == b; } }
  }

  /** On a document with one value a search is decided by that value: with ASCII lower-casing by
      the index, with `str.lower` in memory. */
  lemma OneValue(f: Filter, co: Coercions, d: Doc, e: Engine, py: Python, v: string)
    requires Translate(f, co).Ok? && f.op in {Contains, NotContains} && f.value.Text? && LowerOk(py)
    requires Has(d, f.key.s, v) && forall w :: Has(d, f.key.s, w) ==> w == v
    ensures Means(Translate(f, co).value, d, e) <==> (Hit(f.op, f.value.s, v, Fold) <==> f.op == Contains)
    ensures MemoryHit(f, d, py) <==> (Hit(f.op, f.value.s, v, py.lower) <==> f.op == Contains)
  {
    CompiledMeans(f, co, d, e);
    MemoryParts(f, d, py);
    hide Means, MemoryHit, Has, Translate, Hit, LowerOk;
  }

  /** The index ignores case for ASCII letters only. A capital letter outside ASCII (here the
      Cyrillic em) is found in memory where its small letter is stored, and not by the index;
      searched negatively it is the other way round, on a single-valued field. */
  lemma CapitalsDiffer(co: Coercions, e: Engine, py: Python)
    requires LowerOk(py) && py.lower("\U{041C}") == "\U{043C}"
    ensures var d := Doc("1", "kb", [Field("k", ["\U{043C}"])]);
            var f, g := Filter(Contains, Text("k"), Text("\U{041C}")), Filter(NotContains, Text("k"), Text("\U{041C}"));
            Translate(f, co).Ok? && MemoryHit(f, d, py) && !Means(Translate(f, co).value, d, e)
            && Translate(g, co).Ok? && !MemoryHit(g, d, py) && Means(Translate(g, co).value, d, e)
  {
    var big, small := "\U{041C}", "\U{043C}";
    var d := Doc("1", "kb", [Field("k", [small])]);
    var f, g := Filter(Contains, Text("k"), Text(big)), Filter(NotContains, Text("k"), Text(big));
    assert py.lower(small) == small by { assert py.lower(py.lower(big)) == py.lower(big); }
    assert d.fields[0].key == "k" && small in d.fields[0].values;
    assert Has(d, "k", small) && forall v :: Has(d, "k", v) ==> v == small;
    assert Fold(big) == big && Fold(small) == small;
    NotInside(big, small);
    assert OccursAt(small, small, 0) && Infix(small, small);
    assert Translate(f, co).Ok? && Translate(g, co).Ok?;
    hide Has, Infix, Translate, Means, MemoryHit, LowerOk;
    OneValue(f, co, d, e, py, small);
    OneValue(g, co, d, e, py, small);
  }

  /** A search for a number: the index looks for the text it prints as, memory raises. */
  lemma NumberDiffers(co: Coercions, e: Engine, py: Python)
    requires LowerOk(py)
    ensures var f := Filter(Contains, Text("k"), Number("5"));
            var d := Doc("1", "kb", [Field("k", ["5"])]);
            Translate(f, co).Ok? && Means(Translate(f, co).value, d, e) && !MemoryHit(f, d, py)
  {
    var f := Filter(Contains, Text("k"), Number("5"));
    var d := Doc("1", "kb", [Field("k", ["5"])]);
    assert d.fields[0].key == "k" && "5" in d.fields[0].values;
    assert Has(d, "k", "5") && Fold("5") == "5";
    assert OccursAt("5", "5", 0) && Infix("5", "5");
    assert Hit(Contains, "5", "5", Fold) && SomeHit(d, "k", Contains, "5", Fold);
    assert Translate(f, co).Ok? && Lost(f, d, py);
    hide Has, Translate, Means, MemoryHit, LowerOk, Lost;
    AgreeExactly(f, co, d, e, py);
  }

  /** Without any filter the query matches the whole scope, while memory answers nothing. */
  lemma NoFilters(conj: bool, kbs: seq<string>, d: Doc, e: Engine)
    ensures Matches(ToQuery(Plan(conj, []), kbs), d, e) <==> d.kb in kbs
  {
    QueryMeans(Plan(conj, []), kbs, d, e);
  }

  /** Some value is the text `t`, as `fold` sees them. */
  ghost predicate SomeSame(d: Doc, k: string, t: string, fold: string -> string) {
    exists v :: Has(d, k, v) && fold(v) == fold(t)
  }

  ghost predicate SomeOther(d: Doc, k: string, t: string, fold: string -> string) {
    exists v :: Has(d, k, v) && fold(v) != fold(t)
  }

  /** Why "≠" is kept away from the index: for words the bucket loop finds a document with some
      other value, the query one with no equal value. They differ exactly on documents with
      values of both kinds, or where the lower-casings disagree about every value. */
  lemma NotEqualDiffers(k: string, t: string, d: Doc, e: Engine, py: Python)
    ensures var compiled := Translated([Exists(k)], [Same(k, t)]);
            (Means(compiled, d, e) <==> SomeOther(d, k, t, py.lower)) <==>
            !((SomeSame(d, k, t, Fold) && SomeOther(d, k, t, py.lower))
              || (SomeValue(d, k) && !SomeSame(d, k, t, Fold) && !SomeOther(d, k, t, py.lower)))
  {
    hide Has;
    MeansOne(Exists(k), d, e);
  }
}
