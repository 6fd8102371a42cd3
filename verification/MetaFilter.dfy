/** `meta_filter`, the in-memory evaluation of metadata filters over value buckets, and the
    flattening of documents into those buckets. */
module MetaFilter {
  import opened Glob
  import opened MetaValues

  // ---------- documents and buckets

  datatype Field = Field(key: string, values: seq<string>)

  datatype Doc = Doc(id: string, kb: string, fields: seq<Field>)

  /** Document `d` holds the value `v` under the key `k`. */
  ghost predicate Has(d: Doc, k: string, v: string) {
    exists i :: 0 <= i < |d.fields| && d.fields[i].key == k && v in d.fields[i].values
  }

  /** One distinct value of a key and the documents that hold it. */
  datatype Bucket = Bucket(value: string, docs: seq<string>)

  type Metas = map<string, seq<Bucket>>

  ghost predicate InBuckets(bs: seq<Bucket>, v: string, id: string) {
    exists i :: 0 <= i < |bs| && bs[i].value == v && id in bs[i].docs
  }

  ghost predicate Listed(m: Metas, k: string, v: string, id: string) {
    k in m && InBuckets(m[k], v, id)
  }

  /** Append `id` to the bucket of `v`, opening it at the end if it is new. */
  function AddToBucket(bs: seq<Bucket>, v: string, id: string): (r: seq<Bucket>)
    ensures forall v', id' :: InBuckets(r, v', id') <==> InBuckets(bs, v', id') || (v' == v && id' == id)
  {
    if bs == [] then
      var r := [Bucket(v, [id])];
      assert r[0].value == v && id in r[0].docs;
      r
    else
      var rest := AddToBucket(bs[1..], v, id);
      var r := if bs[0].value == v then [Bucket(v, bs[0].docs + [id])] + bs[1..] else [bs[0]] + rest;
      BucketsCons(bs);
      BucketsCons(r);
      assert r[1..] == if bs[0].value == v then bs[1..] else rest;
      r
  }

  lemma BucketsCons(bs: seq<Bucket>)
    requires bs != []
    ensures forall v, id :: InBuckets(bs, v, id) <==>
        (bs[0].value == v && id in bs[0].docs) || InBuckets(bs[1..], v, id)
  {
    forall v, id | InBuckets(bs[1..], v, id) ensures InBuckets(bs, v, id) {
      var i :| 0 <= i < |bs[1..]| && bs[1..][i].value == v && id in bs[1..][i].docs;
      assert bs[i + 1].value == v && id in bs[i + 1].docs;
    }
    forall v, id | InBuckets(bs, v, id) && !(bs[0].value == v && id in bs[0].docs) ensures InBuckets(bs[1..], v, id) {
      var i :| 0 <= i < |bs| && bs[i].value == v && id in bs[i].docs;
      assert bs[1..][i - 1].value == v && id in bs[1..][i - 1].docs;
    }
  }

  /** One value of one document. */
  function AddValue(m: Metas, key: string, v: string, id: string): (r: Metas)
    requires key in m
    ensures key in r
    ensures forall k', v', id' :: Listed(r, k', v', id') <==>
        Listed(m, k', v', id') || (k' == key && v' == v && id' == id)
  {
    hide InBuckets;
    m[key := AddToBucket(m[key], v, id)]
  }

  lemma OpenKey(m: Metas, key: string)
    requires key !in m
    ensures forall k, v, id :: Listed(m[key := []], k, v, id) <==> Listed(m, k, v, id)
  {
  }

  /** All values of one field of one document. */
  method AddField(m: Metas, f: Field, id: string) returns (r: Metas)
    ensures forall k, v, id' :: Listed(r, k, v, id') <==>
        Listed(m, k, v, id') || (k == f.key && v in f.values && id' == id)
  {
    hide Listed;
    r := m;
    if f.key !in m {
      OpenKey(m, f.key);
      r := m[f.key := []];
    }
    for i := 0 to |f.values|
      invariant f.key in r
      invariant forall k, v, id' :: Listed(r, k, v, id') <==>
          Listed(m, k, v, id') || (k == f.key && v in f.values[..i] && id' == id)
    {
      r := AddValue(r, f.key, f.values[i], id);
      assert forall v :: v in f.values[..i + 1] <==> v in f.values[..i] || v == f.values[i];
    }
    assert f.values[..|f.values|] == f.values;
  }

  method AddDoc(m: Metas, d: Doc) returns (r: Metas)
    ensures forall k, v, id :: Listed(r, k, v, id) <==> Listed(m, k, v, id) || (id == d.id && Has(d, k, v))
  {
    hide Listed;
    r := m;
    for i := 0 to |d.fields|
      invariant forall k, v, id :: Listed(r, k, v, id) <==> Listed(m, k, v, id) || (id == d.id && HasUpTo(d, k, v, i))
    {
      r := AddField(r, d.fields[i], d.id);
      HasStep(d, i);
    }
  }

  lemma HasStep(d: Doc, i: nat)
    requires i < |d.fields|
    ensures forall k, v {:trigger HasUpTo(d, k, v, i + 1)} ::
              HasUpTo(d, k, v, i + 1) <==> HasUpTo(d, k, v, i) || (k == d.fields[i].key && v in d.fields[i].values)
  {
    forall k, v ensures HasUpTo(d, k, v, i + 1) <==>
        HasUpTo(d, k, v, i) || (k == d.fields[i].key && v in d.fields[i].values) {
      if HasUpTo(d, k, v, i) {
        var j :| 0 <= j < i && d.fields[j].key == k && v in d.fields[j].values;
        assert j < i + 1;
      }
    }
  }

  ghost predicate HasUpTo(d: Doc, k: string, v: string, n: nat)
    requires n <= |d.fields|
  {
    exists i :: 0 <= i < n && d.fields[i].key == k && v in d.fields[i].values
  }

  ghost predicate SomeDocHas(docs: seq<Doc>, id: string, k: string, v: string) {
    exists j :: 0 <= j < |docs| && docs[j].id == id && Has(docs[j], k, v)
  }

  /** Documents flattened into buckets: a bucket lists exactly the documents holding its value. */
  method Flatten(docs: seq<Doc>) returns (m: Metas)
    ensures forall k, v, id :: Listed(m, k, v, id) <==> SomeDocHas(docs, id, k, v)
  {
    hide Listed, Has;
    m := map[];
    NothingListed();
    for j := 0 to |docs|
      invariant forall k, v, id :: Listed(m, k, v, id) <==> SomeDocHas(docs[..j], id, k, v)
    {
      m := AddDoc(m, docs[j]);
      DocsSnoc(docs, j);
    }
    assert docs[..|docs|] == docs;
  }

  lemma NothingListed()
    ensures forall k, v, id :: !Listed(map[], k, v, id)
  {
  }

  lemma DocsSnoc(docs: seq<Doc>, j: nat)
    requires j < |docs|
    ensures forall id, k, v :: SomeDocHas(docs[..j + 1], id, k, v) <==>
        SomeDocHas(docs[..j], id, k, v) || (docs[j].id == id && Has(docs[j], k, v))
  {
    hide Has;
    forall id, k, v | SomeDocHas(docs[..j], id, k, v) ensures SomeDocHas(docs[..j + 1], id, k, v) {
      var i :| 0 <= i < j && docs[..j][i].id == id && Has(docs[..j][i], k, v);
      assert docs[..j + 1][i].id == id;
    }
    forall k, v | Has(docs[j], k, v) ensures SomeDocHas(docs[..j + 1], docs[j].id, k, v) {
      assert docs[..j + 1][j] == docs[j];
    }
    forall id, k, v | SomeDocHas(docs[..j + 1], id, k, v) && !(docs[j].id == id && Has(docs[j], k, v))
      ensures SomeDocHas(docs[..j], id, k, v) {
      var i :| 0 <= i < j + 1 && docs[..j + 1][i].id == id && Has(docs[..j + 1][i], k, v);
      assert docs[..j][i].id == id;
    }
  }

  ghost predicate DistinctIds(docs: seq<Doc>) {
    forall i, j :: 0 <= i < j < |docs| ==> docs[i].id != docs[j].id
  }

  lemma OwnValues(docs: seq<Doc>, d: Doc, k: string, v: string)
    requires DistinctIds(docs) && d in docs
    ensures SomeDocHas(docs, d.id, k, v) <==> Has(d, k, v)
  {
    hide Has;
    var i :| 0 <= i < |docs| && docs[i] == d;
    if Has(d, k, v) { assert docs[i].id == d.id; }
  }

  // ---------- filters

  /** All other comparisons: a verdict and the value carried to the next bucket. */
  type Compare = (Op, string, Value) -> (bool, Value)

  /** What is Python's own: `str.lower`, over all of Unicode, and the comparisons. */
  datatype Python = Python(lower: string -> string, compare: Compare)

  predicate Ascii(s: string) {
    forall i :: 0 <= i < |s| ==> s[i] as int < 128
  }

  /** What is used of `str.lower`: a second call changes nothing, only the empty text becomes
      empty, and on ASCII text it is ASCII lower-casing. */
  ghost predicate LowerOk(py: Python) {
    && (forall s: string {:trigger py.lower(s)} ::
        py.lower(py.lower(s)) == py.lower(s)
        && (py.lower(s) == "" <==> s == ""))
    && (forall s: string {:trigger py.lower(s)} :: Ascii(s) ==> py.lower(s) == Fold(s))
  }

  function Lowered(v: Value, py: Python): Value {
    if v.Text? then Text(py.lower(v.s)) else v
  }

  predicate IsTextOp(op: Op) {
    op in {Contains, NotContains, StartWith, EndWith, Empty, NotEmpty, Unsupported}
  }

  /** The text operators on a lower-cased bucket value and a lower-cased filter value; a
      search for something that is not text raises, which counts as no match. */
  predicate TextHit(op: Op, input: string, v: Value, py: Python) {
    match op
    case Contains => v.Text? && Infix(v.s, input)
    case NotContains => v.Text? && !Infix(v.s, input)
    case StartWith => StartsWith(py.lower(input), py.lower(Shown(v)))
    case EndWith => EndsWith(py.lower(input), py.lower(Shown(v)))
    case Empty => input == ""
    case NotEmpty => input != ""
    case _ => false
  }

  function Step(op: Op, input: string, v: Value, py: Python): (bool, Value) {
    if IsTextOp(op) then (TextHit(op, py.lower(input), Lowered(v, py), py), Lowered(v, py))
    else py.compare(op, input, v)
  }

  /** The filter value as the loop has rewritten it after some buckets. */
  function Carried(bs: seq<Bucket>, op: Op, v: Value, py: Python): Value {
    if bs == [] then v else
    Step(op, bs[|bs| - 1].value, Carried(bs[..|bs| - 1], op, v, py), py).1
  }

  function Selected(bs: seq<Bucket>, op: Op, v: Value, py: Python): seq<string> {
    if bs == [] then [] else
    var init, last := bs[..|bs| - 1], bs[|bs| - 1];
    Selected(init, op, v, py) + if Step(op, last.value, Carried(init, op, v, py), py).0 then last.docs else []
  }

  /** The loop over buckets, with the filter value rewritten as it goes. */
  method FilterOut(bs: seq<Bucket>, op: Op, v: Value, py: Python) returns (ids: seq<string>)
    ensures ids == Selected(bs, op, v, py)
  {
    ids := [];
    var value := v;
    for i := 0 to |bs|
      invariant ids == Selected(bs[..i], op, v, py) && value == Carried(bs[..i], op, v, py)
    {
      assert bs[..i + 1][..i] == bs[..i];
      var (matched, next) := Step(op, bs[i].value, value, py);
      if matched {
        ids := ids + bs[i].docs;
      }
      value := next;
    }
    assert bs[..|bs|] == bs;
  }

  lemma {:induction false} CarriedText(bs: seq<Bucket>, op: Op, v: Value, py: Python)
    requires IsTextOp(op) && LowerOk(py)
    ensures Lowered(Carried(bs, op, v, py), py) == Lowered(v, py)
    decreases |bs|
  {
    if bs == [] {
    } else {
      CarriedText(bs[..|bs| - 1], op, v, py);
    }
  }

  /** For text operators the carried value makes no difference: a document is selected exactly
      when one of its own values meets the filter. */
  lemma {:induction false} SelectedText(bs: seq<Bucket>, op: Op, v: Value, py: Python, id: string)
    requires IsTextOp(op) && LowerOk(py)
    ensures id in Selected(bs, op, v, py) <==>
        exists x :: InBuckets(bs, x, id) && TextHit(op, py.lower(x), Lowered(v, py), py)
    decreases |bs|
  {
    if bs == [] {
    } else {
      var init, last := bs[..|bs| - 1], bs[|bs| - 1];
      SelectedText(init, op, v, py, id);
      CarriedText(init, op, v, py);
      hide TextHit, Lowered, IsTextOp;
      forall x ensures InBuckets(bs, x, id) <==> InBuckets(init, x, id) || (last.value == x && id in last.docs) {
        BucketsSnoc(bs, x, id);
      }
    }
  }

  lemma BucketsSnoc(bs: seq<Bucket>, x: string, id: string)
    requires bs != []
    ensures InBuckets(bs, x, id) <==>
            InBuckets(bs[..|bs| - 1], x, id)
            || (bs[|bs| - 1].value == x && id in bs[|bs| - 1].docs)
  {
    var init, last := bs[..|bs| - 1], bs[|bs| - 1];
    if InBuckets(init, x, id) {
      var i :| 0 <= i < |init| && init[i].value == x && id in init[i].docs;
      assert bs[i].value == x;
    }
    if InBuckets(bs, x, id) && !(last.value == x && id in last.docs) {
      var i :| 0 <= i < |bs| && bs[i].value == x && id in bs[i].docs;
      assert init[i].value == x;
    }
  }

  /** The documents one filter selects; none if the key is unknown. */
  function FilterIds(m: Metas, f: Filter, py: Python): seq<string> {
    if f.key.Text? && f.key.s in m then Selected(m[f.key.s], f.op, f.value, py) else []
  }

  function AsSet(s: seq<string>): (r: set<string>)
    ensures forall x :: x in r <==> x in s
  {
    set x | x in s
  }

  /** What the answer means: all filters under "and", some filter under anything else. */
  ghost predicate Chosen(m: Metas, fs: seq<Filter>, conj: bool, py: Python, id: string) {
    if conj then forall k :: 0 <= k < |fs| ==> id in FilterIds(m, fs[k], py)
    else exists k :: 0 <= k < |fs| && id in FilterIds(m, fs[k], py)
  }

  /** The outer loop: intersect or unite filter by filter, with an early return once an
      intersection is empty. No filters, no documents. */
  method Evaluate(m: Metas, fs: seq<Filter>, conj: bool, py: Python) returns (docs: set<string>)
    ensures fs == [] ==> docs == {}
    ensures fs != [] ==> forall id :: id in docs <==> Chosen(m, fs, conj, py, id)
  {
    hide Selected, FilterIds;
    docs := {};
    for i := 0 to |fs|
      invariant i == 0 ==> docs == {}
      invariant i > 0 ==> forall id :: id in docs <==> Chosen(m, fs[..i], conj, py, id)
    {
      var ids := [];
      if fs[i].key.Text? && fs[i].key.s in m {
        ids := FilterOut(m[fs[i].key.s], fs[i].op, fs[i].value, py);
      }
      assert ids == FilterIds(m, fs[i], py) by { OneFilter(m, fs[i], py); }
      forall id ensures Chosen(m, fs[..i + 1], conj, py, id) <==>
                        if i == 0 then id in ids else if conj then Chosen(m, fs[..i], conj, py, id) && id in ids
                        else Chosen(m, fs[..i], conj, py, id) || id in ids
      {
        ChosenSnoc(m, fs, i, conj, py, id);
      }
      if i == 0 {
        docs := AsSet(ids);
      } else if conj {
        docs := docs * AsSet(ids);
        if docs == {} {
          NoneLeft(m, fs, i + 1, py, docs);
          return {};
        }
      } else {
        docs := docs + AsSet(ids);
      }
    }
    assert fs[..|fs|] == fs;
  }

  lemma OneFilter(m: Metas, f: Filter, py: Python)
    ensures FilterIds(m, f, py) == if f.key.Text? && f.key.s in m then Selected(m[f.key.s], f.op, f.value, py) else []
  {
  }

  lemma ChosenSnoc(m: Metas, fs: seq<Filter>, i: nat, conj: bool, py: Python, id: string)
    requires i < |fs|
    ensures Chosen(m, fs[..i + 1], conj, py, id) <==>
            if i == 0 then id in FilterIds(m, fs[i], py)
            else if conj then Chosen(m, fs[..i], conj, py, id) && id in FilterIds(m, fs[i], py)
            else Chosen(m, fs[..i], conj, py, id) || id in FilterIds(m, fs[i], py)
  {
    hide FilterIds;
    var a, b := fs[..i], fs[..i + 1];
    assert forall k :: 0 <= k < i ==> b[k] == a[k];
    assert b[i] == fs[i];
    if conj {
      if Chosen(m, b, conj, py, id) {
        assert forall k :: 0 <= k < |a| ==> id in FilterIds(m, b[k], py);
      }
    } else if i > 0 && Chosen(m, a, conj, py, id) {
      var k :| 0 <= k < |a| && id in FilterIds(m, a[k], py);
      assert id in FilterIds(m, b[k], py);
    }
  }

  /** Why the early return is safe: nothing satisfies a longer conjunction. */
  lemma NoneLeft(m: Metas, fs: seq<Filter>, i: nat, py: Python, docs: set<string>)
    requires i <= |fs| && docs == {} && forall id :: id in docs <==> Chosen(m, fs[..i], true, py, id)
    ensures forall id :: !Chosen(m, fs, true, py, id)
  {
    hide FilterIds;
    forall id ensures !Chosen(m, fs, true, py, id) {
      assert !Chosen(m, fs[..i], true, py, id) by { assert id !in docs; }
      assert forall k :: 0 <= k < i ==> fs[..i][k] == fs[k];
    }
  }
}
