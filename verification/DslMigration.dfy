/** `normalize_chunker_dsl`: legacy chunker names and ids rewritten throughout a canvas
    description. */
module DslMigration {
  import opened MetaValues
  import opened DslIds
  import opened DslText

  /** JSON values; a dictionary keeps its entries in insertion order. */
  datatype Json = Str(s: string) | List(items: seq<Json>) | Dict(entries: seq<Entry>) | Atom(shown: string)

  datatype Entry = Entry(key: string, value: Json)

  // ---------- dictionaries

  ghost predicate DistinctKeys(es: seq<Entry>) {
    forall i, j :: 0 <= i < j < |es| ==> es[i].key != es[j].key
  }

  function Find(es: seq<Entry>, k: string): (r: Option<Json>)
    ensures r.None? <==> forall i :: 0 <= i < |es| ==> es[i].key != k
  {
    if es == [] then None else if es[0].key == k then Some(es[0].value) else
    var r := Find(es[1..], k);
    assert forall i :: 0 < i < |es| ==> es[i] == es[1..][i - 1];
    r
  }

  /** `d[k] = v`: in place if the key is there, else at the end. */
  function Put(es: seq<Entry>, k: string, v: Json): (r: seq<Entry>)
    ensures Find(r, k) == Some(v)
    ensures |r| == if Find(es, k).Some? then |es| else |es| + 1
  {
    if es == [] then [Entry(k, v)]
    else if es[0].key == k then
      var r := [Entry(k, v)] + es[1..];
      assert r[0].key == k;
      r
    else
      var rest := Put(es[1..], k, v);
      var r := [es[0]] + rest;
      assert r[1..] == rest;
      r
  }

  lemma {:induction false} PutOther(es: seq<Entry>, k: string, v: Json, k': string)
    requires k' != k
    ensures Find(Put(es, k, v), k') == Find(es, k')
    decreases |es|
  {
    if es == [] {
      assert Put(es, k, v)[1..] == [];
    } else if es[0].key == k {
      assert Put(es, k, v)[1..] == es[1..];
    } else {
      PutOther(es[1..], k, v, k');
      assert Put(es, k, v)[1..] == Put(es[1..], k, v);
    }
  }

  /** Writing back what is there changes nothing. */
  lemma {:induction false} PutSame(es: seq<Entry>, k: string)
    requires Find(es, k).Some?
    ensures Put(es, k, Find(es, k).value) == es
    decreases |es|
  {
    if es[0].key != k {
      PutSame(es[1..], k);
      assert es == [es[0]] + es[1..];
    }
  }

  // ---------- renames

  function RenameName(n: string): (r: string)
    ensures r in {"TokenChunker", "TitleChunker", "DocGenerator"}
        || (r == n && n !in {"Splitter", "HierarchicalMerger", "PDFGenerator"})
  {
    if n == "Splitter" then "TokenChunker" else if n == "HierarchicalMerger" then "TitleChunker"
    else if n == "PDFGenerator" then "DocGenerator" else n
  }

  function RenameType(t: string): string {
    if t == "splitterNode" then "chunkerNode" else t
  }

  /** The names that change, and the one node type that does; all others stay. */
  lemma NamesRenamed(n: string, t: string)
    ensures RenameName("Splitter") == "TokenChunker" && RenameName("HierarchicalMerger") == "TitleChunker"
    ensures RenameName("PDFGenerator") == "DocGenerator"
    ensures n !in {"Splitter", "HierarchicalMerger", "PDFGenerator"} ==> RenameName(n) == n
    ensures RenameType(t) == if t == "splitterNode" then "chunkerNode" else t
  {
  }

  lemma StartsAsName(n: string, rest: string, p: Prefix, name: string)
    requires ':' !in n && ':' !in name && p.legacy == name + ":"
    ensures p.legacy <= n + ":" + rest <==> n == name
  {
    var s := n + ":" + rest;
    if p.legacy <= s {
      assert s[|name|] == p.legacy[|name|] == ':';
      assert s[|n|] == ':' && forall i :: 0 <= i < |name| ==> p.legacy[i] == name[i] != ':';
      assert |n| == |name|;
      assert n == s[..|n|] == p.legacy[..|name|] == name;
    }
  }

  /** A component id, which is a class name, a colon and a suffix, is renamed as its class name is. */
  lemma IdLikeName(n: string, suffix: string)
    requires ':' !in n
    ensures RenameId(n + ":" + suffix) == RenameName(n) + ":" + suffix
  {
    StartsAsName(n, suffix, SPLITTER, "Splitter");
    StartsAsName(n, suffix, MERGER, "HierarchicalMerger");
    StartsAsName(n, suffix, GENERATOR, "PDFGenerator");
    var s := n + ":" + suffix;
    if Marked(s) {
      var p := MarkOf(s);
      assert s == p.legacy + suffix;
      MarkedBy(p, suffix);
    }
  }

  function KeysOf(es: seq<Entry>): (ks: seq<string>)
    ensures |ks| == |es| && forall i :: 0 <= i < |ks| ==> ks[i] == es[i].key
  {
    seq(|es|, i requires 0 <= i < |es| => es[i].key)
  }

  function IdMapOf(ks: seq<string>): (m: IdMap)
    ensures forall k :: k in m <==> k in ks
    ensures forall k :: k in m ==> m[k] == RenameId(k)
  {
    map k | k in ks :: RenameId(k)
  }

  lemma RenameIdLike(ks: seq<string>)
    ensures IdLike(IdMapOf(ks))
  {
    hide InClass;
    var m := IdMapOf(ks);
    forall k | k in m && k != "" && AllIn(IdChar, k) ensures m[k] != "" && AllIn(IdChar, m[k]) {
      if Marked(k) {
        CurrentLike(MarkOf(k));
        MarkParts(k);
        AppendLike(MarkOf(k).current, k, |MarkOf(k).legacy|);
      }
    }
  }

  lemma CurrentLike(p: Prefix)
    requires IsPrefix(p)
    ensures AllIn(IdChar, p.current)
  {
  }

  lemma LegacyLike(p: Prefix)
    requires IsPrefix(p)
    ensures AllIn(IdChar, p.legacy)
  {
  }

  lemma AppendLike(pre: string, x: string, n: nat)
    requires n <= |x| && AllIn(IdChar, x) && AllIn(IdChar, pre)
    ensures AllIn(IdChar, pre + x[n..])
  {
  }

  // ---------- values

  function RewriteValue(m: IdMap, v: Json): Json
    decreases v, 1
  {
    match v
    case Str(s) => Str(RewriteText(m, s))
    case List(items) => List(RewriteItems(m, items))
    case Dict(es) => Dict(RewriteEntries(m, es))
    case Atom(_) => v
  }

  function RewriteItems(m: IdMap, items: seq<Json>): (r: seq<Json>)
    ensures |r| == |items| && forall i :: 0 <= i < |r| ==> r[i] == RewriteValue(m, items[i])
    decreases items, 0
  {
    seq(|items|, i requires 0 <= i < |items| => RewriteValue(m, items[i]))
  }

  function RewriteEntries(m: IdMap, es: seq<Entry>): (r: seq<Entry>)
    ensures |r| == |es| && forall i :: 0 <= i < |r| ==> r[i] == Entry(es[i].key, RewriteValue(m, es[i].value))
    decreases es, 0
  {
    seq(|es|, i requires 0 <= i < |es| => Entry(es[i].key, RewriteValue(m, es[i].value)))
  }

  ghost predicate Still(m: IdMap) {
    forall k :: k in m ==> m[k] == k
  }

  lemma {:induction false} RewriteStill(m: IdMap, v: Json)
    requires Still(m)
    ensures RewriteValue(m, v) == v
    decreases v
  {
    match v {
      case Str(s) => SubstituteIdentity(m, s);
      case List(items) =>
        forall i | 0 <= i < |items| ensures RewriteValue(m, items[i]) == items[i] { RewriteStill(m, items[i]); }
        assert RewriteItems(m, items) == items;
      case Dict(es) =>
        forall i | 0 <= i < |es| ensures RewriteValue(m, es[i].value) == es[i].value { RewriteStill(m, es[i].value); }
        assert RewriteEntries(m, es) == es;
      case Atom(_) =>
    }
  }

  // ---------- what is done to the parts of a description

  /** The treatments the migration applies at fixed places. */
  datatype Treatment =
    | IdText
    | IdList
    | NameText
    | TypeText
    | EdgeText
    | Whole
    | ComponentName
    | Each(element: Treatment)
    | Inside(steps: seq<Step>)

  /** Treat the value under `key`, if there is one. */
  datatype Step = Step(key: string, how: Treatment)

  const DATA := Inside([Step("label", NameText), Step("name", NameText), Step("form", Whole)])
  const NODE := Inside([Step("id", IdText), Step("parentId", IdText), Step("type", TypeText), Step("data", DATA)])
  const EDGE := Inside([Step("source", IdText), Step("target", IdText), Step("id", EdgeText)])
  const GRAPH := Inside([Step("nodes", Each(NODE)), Step("edges", Each(EDGE))])
  const COMPONENT := Inside([Step("obj", ComponentName), Step("downstream", IdList), Step("upstream", IdList),
      Step("parent_id", IdText)])
  const REST := [Step("path", IdList), Step("graph", GRAPH), Step("history", Whole), Step("messages", Whole),
      Step("reference", Whole)]

  function GetItem(m: IdMap, v: Json): Json {
    match v case Str(x) => Str(Get(m, x)) case _ => v
  }

  function GetItems(m: IdMap, items: seq<Json>): (r: seq<Json>)
    ensures |r| == |items| && forall i :: 0 <= i < |r| ==> r[i] == GetItem(m, items[i])
  {
    seq(|items|, i requires 0 <= i < |items| => GetItem(m, items[i]))
  }

  /** What the "component_name" of an object becomes; a missing one is stored as None. */
  function CurrentName(v: Option<Json>): Json {
    match v case None => Atom("None") case Some(Str(n)) => Str(RenameName(n)) case Some(x) => x
  }

  function Treat(ks: seq<string>, how: Treatment, v: Json): Json
    decreases how, 1
  {
    var m := IdMapOf(ks);
    match how
    case IdText => GetItem(m, v)
    case IdList => if v.List? then List(GetItems(m, v.items)) else v
    case NameText => if v.Str? then Str(RenameName(v.s)) else v
    case TypeText => if v.Str? then Str(RenameType(v.s)) else v
    case EdgeText => if v.Str? then Str(ReplaceIds(v.s, ByLength(ks))) else v
    case Whole => RewriteValue(m, v)
    case ComponentName =>
      if v.Dict? then Dict(Put(v.entries, "component_name", CurrentName(Find(v.entries, "component_name")))) else v
    case Each(element) => if v.List? then List(TreatEach(ks, element, v.items)) else v
    case Inside(steps) => if v.Dict? then Dict(TreatSteps(ks, steps, v.entries)) else v
  }

  function TreatEach(ks: seq<string>, how: Treatment, items: seq<Json>): (r: seq<Json>)
    ensures |r| == |items| && forall i :: 0 <= i < |r| ==> r[i] == Treat(ks, how, items[i])
    decreases how, 2
  {
    seq(|items|, i requires 0 <= i < |items| => Treat(ks, how, items[i]))
  }

  function TreatSteps(ks: seq<string>, steps: seq<Step>, es: seq<Entry>): seq<Entry>
    decreases steps, 0
  {
    if steps == [] then es
    else
      var before := TreatSteps(ks, steps[..|steps| - 1], es);
      var last := steps[|steps| - 1];
      match Find(before, last.key)
      case None => before
      case Some(v) => Put(before, last.key, Treat(ks, last.how, v))
  }

  // ---------- components and the whole description

  function MigrateComponent(ks: seq<string>, v: Json): Json {
    Treat(ks, COMPONENT, RewriteValue(IdMapOf(ks), v))
  }

  /** Components under their new ids; of two that get the same id the later one stays. */
  function MigrateComponents(ks: seq<string>, cs: seq<Entry>): seq<Entry> {
    if cs == [] then [] else
    Put(MigrateComponents(ks, cs[..|cs| - 1]), RenameId(cs[|cs| - 1].key), MigrateComponent(ks, cs[|cs| - 1].value))
  }

  /** The component pass. */
  method RewriteComponents(ks: seq<string>, cs: seq<Entry>) returns (r: seq<Entry>)
    ensures r == MigrateComponents(ks, cs)
  {
    hide Put, MigrateComponent;
    r := [];
    for i := 0 to |cs|
      invariant r == MigrateComponents(ks, cs[..i])
    {
      assert cs[..i + 1][..i] == cs[..i];
      r := Put(r, RenameId(cs[i].key), MigrateComponent(ks, cs[i].value));
    }
    assert cs[..|cs|] == cs;
  }

  /** The node and edge passes: list elements treated one by one, in place. */
  method RewriteElements(ks: seq<string>, how: Treatment, items: seq<Json>) returns (r: seq<Json>)
    ensures r == TreatEach(ks, how, items)
  {
    hide Treat;
    r := items;
    for i := 0 to |items|
      invariant |r| == |items|
      invariant forall j :: 0 <= j < |r| ==> r[j] == if j < i then Treat(ks, how, items[j]) else items[j]
    {
      r := r[i := Treat(ks, how, r[i])];
    }
  }

  /** A description without a dictionary of components is left as it is. */
  function Normalize(d: Json): Json {
    if d.Dict? && Find(d.entries, "components").Some? && Find(d.entries, "components").value.Dict? then
      var cs := Find(d.entries, "components").value.entries;
      var ks := KeysOf(cs);
      Dict(TreatSteps(ks, REST, Put(d.entries, "components", Dict(MigrateComponents(ks, cs)))))
    else d
  }

  // ---------- migrating twice is migrating once

  ghost predicate StepsOk(steps: seq<Step>) {
    forall i, j :: 0 <= i < j < |steps| ==> steps[i].key != steps[j].key
  }

  /** No place is treated twice. */
  ghost predicate TreatmentOk(how: Treatment) {
    match how
    case Each(element) => TreatmentOk(element)
    case Inside(steps) => StepsOk(steps) && forall i :: 0 <= i < |steps| ==> TreatmentOk(steps[i].how)
    case _ => true
  }

  /** A key that no step names keeps its value. */
  lemma {:induction false} StepsOther(ks: seq<string>, steps: seq<Step>, es: seq<Entry>, k: string)
    requires forall i :: 0 <= i < |steps| ==> steps[i].key != k
    ensures Find(TreatSteps(ks, steps, es), k) == Find(es, k)
    decreases |steps|
  {
    hide Treat, Put, Find;
    if steps == [] {
    } else {
      var before, last := TreatSteps(ks, steps[..|steps| - 1], es), steps[|steps| - 1];
      StepsOther(ks, steps[..|steps| - 1], es, k);
      match Find(before, last.key) {
        case None =>
        case Some(v) => PutOther(before, last.key, Treat(ks, last.how, v), k);
      }
    }
  }

  /** A key that a step names has its value treated once. */
  lemma {:induction false} StepsAt(ks: seq<string>, steps: seq<Step>, es: seq<Entry>, j: nat)
    requires StepsOk(steps) && j < |steps|
    ensures Find(TreatSteps(ks, steps, es), steps[j].key) ==
            match Find(es, steps[j].key) case None => None case Some(v) => Some(Treat(ks, steps[j].how, v))
    decreases |steps|
  {
    hide Treat, Put, Find;
    var init, last := steps[..|steps| - 1], steps[|steps| - 1];
    var before := TreatSteps(ks, init, es);
    if j < |init| {
      StepsAt(ks, init, es, j);
      assert steps[j].key != last.key;
      match Find(before, last.key) {
        case None =>
        case Some(v) => PutOther(before, last.key, Treat(ks, last.how, v), steps[j].key);
      }
    } else {
      StepsOther(ks, init, es, last.key);
    }
  }

  lemma {:induction false} TreatTwice(ks: seq<string>, ks': seq<string>, how: Treatment, v: Json)
    requires TreatmentOk(how) && Still(IdMapOf(ks'))
    ensures Treat(ks', how, Treat(ks, how, v)) == Treat(ks, how, v)
    decreases how, 1
  {
    var w := Treat(ks, how, v);
    var m' := IdMapOf(ks');
    match how {
      case IdText =>
      case IdList => if v.List? { assert GetItems(m', w.items) == w.items; }
      case NameText =>
      case TypeText =>
      case EdgeText => if v.Str? { ReplaceIdsStill(w.s, ByLength(ks')); }
      case Whole => RewriteStill(m', w);
      case ComponentName => if v.Dict? { NameTwice(v.entries); }
      case Each(element) =>
        if v.List? {
          forall i | 0 <= i < |v.items| ensures Treat(ks', element, w.items[i]) == w.items[i] {
            TreatTwice(ks, ks', element, v.items[i]);
          }
          assert TreatEach(ks', element, w.items) == w.items;
        }
      case Inside(steps) =>
        if v.Dict? {
          StepsTwice(ks, ks', steps, v.entries, |steps|);
          assert steps[..|steps|] == steps;
        }
    }
  }

  lemma NameTwice(es: seq<Entry>)
    ensures var r := Put(es, "component_name", CurrentName(Find(es, "component_name")));
            Put(r, "component_name", CurrentName(Find(r, "component_name"))) == r
  {
    var r := Put(es, "component_name", CurrentName(Find(es, "component_name")));
    PutSame(r, "component_name");
  }

  lemma {:induction false} StepsTwice(ks: seq<string>, ks': seq<string>, steps: seq<Step>, es: seq<Entry>, n: nat)
    requires StepsOk(steps) && n <= |steps| && (forall i :: 0 <= i < |steps| ==> TreatmentOk(steps[i].how))
    requires Still(IdMapOf(ks'))
    ensures TreatSteps(ks', steps[..n], TreatSteps(ks, steps, es)) == TreatSteps(ks, steps, es)
    decreases steps, 0, n
  {
    hide Treat, Put, Find, IdMapOf, TreatmentOk;
    var r := TreatSteps(ks, steps, es);
    if n == 0 {
      NoSteps(ks', r);
      assert steps[..0] == [];
    } else {
      StepsTwice(ks, ks', steps, es, n - 1);
      var j := n - 1;
      assert steps[..n][..j] == steps[..j];
      StepsAt(ks, steps, es, j);
      match Find(es, steps[j].key) {
        case None =>
        case Some(v) =>
          TreatTwice(ks, ks', steps[j].how, v);
          PutSame(r, steps[j].key);
      }
    }
  }

  lemma NoSteps(ks: seq<string>, es: seq<Entry>)
    ensures TreatSteps(ks, [], es) == es
  {
  }

  lemma SchemaOk()
    ensures TreatmentOk(COMPONENT) && StepsOk(REST) && forall i :: 0 <= i < |REST| ==> TreatmentOk(REST[i].how)
    ensures forall i :: 0 <= i < |REST| ==> REST[i].key != "components"
  {
    DataOk();
    NodeOk();
    EdgeOk();
    hide TreatmentOk, StepsOk;
    GraphSchemaOk();
    ComponentSchemaOk();
    RestOk();
  }

  lemma DataOk()
    ensures TreatmentOk(DATA)
  {
  }

  lemma NodeOk()
    ensures TreatmentOk(Each(NODE))
  {
    DataOk();
  }

  lemma EdgeOk()
    ensures TreatmentOk(Each(EDGE))
  {
  }

  lemma GraphSchemaOk()
    requires TreatmentOk(Each(NODE)) && TreatmentOk(Each(EDGE))
    ensures TreatmentOk(GRAPH)
  {
  }

  lemma ComponentSchemaOk()
    ensures TreatmentOk(COMPONENT)
  {
  }

  lemma RestOk()
    requires TreatmentOk(GRAPH)
    ensures StepsOk(REST) && forall i :: 0 <= i < |REST| ==> TreatmentOk(REST[i].how)
    ensures forall i :: 0 <= i < |REST| ==> REST[i].key != "components"
  {
    assert TreatmentOk(IdList) && TreatmentOk(Whole);
    hide TreatmentOk;
  }

  /** Entries are migrated components under current ids, each id once. */
  ghost predicate Current(ks: seq<string>, es: seq<Entry>) {
    DistinctKeys(es) && forall i :: 0 <= i < |es| ==>
        RenameId(es[i].key) == es[i].key && exists v :: es[i].value == MigrateComponent(ks, v)
  }

  /** A new key goes to the end, a known one is overwritten where it stands. */
  lemma {:induction false} PutPlace(es: seq<Entry>, k: string, v: Json) returns (i: nat)
    ensures i <= |es| && (i < |es| ==> es[i].key == k && Put(es, k, v) == es[i := Entry(k, v)])
    ensures i == |es| ==> Put(es, k, v) == es + [Entry(k, v)] && forall j :: 0 <= j < |es| ==> es[j].key != k
    decreases |es|
  {
    hide Find;
    if es == [] {
      i := 0;
    } else {
      PutFirst(es, k, v);
      hide Put;
      if es[0].key == k {
        i := 0;
        UpdateFirst(es, Entry(k, v));
      } else {
        var n := PutPlace(es[1..], k, v);
        i := n + 1;
        if n < |es[1..]| { UpdateRest(es, n, Entry(k, v)); } else { AppendRest(es, Entry(k, v)); }
        assert forall j :: 0 < j < |es| ==> es[j] == es[1..][j - 1];
      }
    }
  }

  lemma PutFirst(es: seq<Entry>, k: string, v: Json)
    requires es != []
    ensures Put(es, k, v) == if es[0].key == k then [Entry(k, v)] + es[1..] else [es[0]] + Put(es[1..], k, v)
  {
    hide Find;
  }

  lemma UpdateFirst(es: seq<Entry>, e: Entry)
    requires es != []
    ensures [e] + es[1..] == es[0 := e]
  {
  }

  lemma UpdateRest(es: seq<Entry>, n: nat, e: Entry)
    requires n + 1 < |es|
    ensures [es[0]] + es[1..][n := e] == es[n + 1 := e]
  {
  }

  lemma AppendRest(es: seq<Entry>, e: Entry)
    requires es != []
    ensures [es[0]] + (es[1..] + [e]) == es + [e]
  {
  }

  lemma PutEntries(es: seq<Entry>, k: string, v: Json)
    requires DistinctKeys(es)
    ensures DistinctKeys(Put(es, k, v))
    ensures forall e :: e in Put(es, k, v) ==> e in es || e == Entry(k, v)
    ensures (forall i :: 0 <= i < |es| ==> es[i].key != k) ==> Put(es, k, v) == es + [Entry(k, v)]
  {
    hide Put, Find;
    var i := PutPlace(es, k, v);
  }

  lemma {:induction false} MigratedCurrent(ks: seq<string>, cs: seq<Entry>)
    ensures Current(ks, MigrateComponents(ks, cs))
    decreases |cs|
  {
    hide Put, MigrateComponent, Find, RenameId;
    if cs == [] {
    } else {
      var init, last := cs[..|cs| - 1], cs[|cs| - 1];
      MigratedCurrent(ks, init);
      RenameIdTwice(last.key);
      var before := MigrateComponents(ks, init);
      PutEntries(before, RenameId(last.key), MigrateComponent(ks, last.value));
      var r := MigrateComponents(ks, cs);
      forall i | 0 <= i < |r|
        ensures RenameId(r[i].key) == r[i].key && exists v :: r[i].value == MigrateComponent(ks, v)
      {
        assert r[i] in r;
        if r[i] in before {
          var j :| 0 <= j < |before| && before[j] == r[i];
        }
      }
    }
  }

  lemma CurrentStill(ks: seq<string>, es: seq<Entry>)
    requires Current(ks, es)
    ensures Still(IdMapOf(KeysOf(es)))
  {
    hide MigrateComponent, RenameId;
    forall k | k in KeysOf(es) ensures RenameId(k) == k {
      var i :| 0 <= i < |es| && es[i].key == k;
    }
  }

  lemma CurrentAt(ks: seq<string>, es: seq<Entry>, i: nat) returns (v: Json)
    requires Current(ks, es) && i < |es|
    ensures DistinctKeys(es) && RenameId(es[i].key) == es[i].key && es[i].value == MigrateComponent(ks, v)
  {
    hide MigrateComponent, RenameId, DistinctKeys;
    var e := es[i];
    assert RenameId(e.key) == e.key;
    v :| e.value == MigrateComponent(ks, v);
  }

  /** Current components are not moved by another pass. */
  lemma {:induction false} CurrentStays(ks: seq<string>, ks': seq<string>, es: seq<Entry>, n: nat)
    requires Current(ks, es) && Still(IdMapOf(ks')) && n <= |es|
    ensures MigrateComponents(ks', es[..n]) == es[..n]
    decreases n
  {
    hide Put, Find, RenameId, MigrateComponent, Still, IdMapOf, DistinctKeys, Current;
    if n == 0 {
      assert es[..0] == [];
    } else {
      CurrentStays(ks, ks', es, n - 1);
      var e := es[n - 1];
      assert es[..n][..n - 1] == es[..n - 1] && es[..n][n - 1] == e;
      var v := CurrentAt(ks, es, n - 1);
      ComponentStays(ks, ks', v);
      PrefixFresh(es, n - 1);
      PutEntries(es[..n - 1], e.key, e.value);
      assert es[..n] == es[..n - 1] + [Entry(e.key, e.value)];
    }
  }

  lemma PrefixFresh(es: seq<Entry>, n: nat)
    requires DistinctKeys(es) && n < |es|
    ensures DistinctKeys(es[..n]) && forall i :: 0 <= i < n ==> es[..n][i].key != es[n].key
  {
  }

  lemma ComponentStays(ks: seq<string>, ks': seq<string>, v: Json)
    requires Still(IdMapOf(ks'))
    ensures MigrateComponent(ks', MigrateComponent(ks, v)) == MigrateComponent(ks, v)
  {
    hide Treat, IdMapOf, TreatmentOk, Still, RewriteValue;
    SchemaOk();
    RewriteStill(IdMapOf(ks'), MigrateComponent(ks, v));
    TreatTwice(ks, ks', COMPONENT, RewriteValue(IdMapOf(ks), v));
  }

  /** Every description, whatever its shape: migrating twice gives what migrating once gives. */
  lemma Idempotent(d: Json)
    ensures Normalize(Normalize(d)) == Normalize(d)
  {
    hide Put, Find, TreatSteps, MigrateComponents, Current, Still, IdMapOf, StepsOk, TreatmentOk;
    if d.Dict? && Find(d.entries, "components").Some? && Find(d.entries, "components").value.Dict? {
      var cs := Find(d.entries, "components").value.entries;
      var ks := KeysOf(cs);
      var cs' := MigrateComponents(ks, cs);
      var es1 := Put(d.entries, "components", Dict(cs'));
      var es2 := TreatSteps(ks, REST, es1);
      var ks' := KeysOf(cs');
      SchemaOk();
      StepsOther(ks, REST, es1, "components");
      MigratedCurrent(ks, cs);
      CurrentStill(ks, cs');
      CurrentStays(ks, ks', cs', |cs'|);
      assert cs'[..|cs'|] == cs';
      PutSame(es2, "components");
      StepsTwice(ks, ks', REST, es1, |REST|);
      assert REST[..|REST|] == REST;
    }
  }

  // ---------- the migrated graph is the image of the old one

  /** No two ids are renamed to the same id. */
  ghost predicate NoCollision(ks: seq<string>) {
    forall i, j :: 0 <= i < j < |ks| ==> RenameId(ks[i]) != RenameId(ks[j])
  }

  lemma {:induction false} MigratedKeys(ks: seq<string>, cs: seq<Entry>, k: string)
    ensures Find(MigrateComponents(ks, cs), k).Some? <==> exists i :: 0 <= i < |cs| && RenameId(cs[i].key) == k
    decreases |cs|
  {
    hide Put, MigrateComponent, Find, RenameId;
    if cs == [] {
      NothingFound(k);
    } else {
      var init, last := cs[..|cs| - 1], cs[|cs| - 1];
      MigratedKeys(ks, init, k);
      assert cs == init + [last];
      if k != RenameId(last.key) {
        PutOther(MigrateComponents(ks, init), RenameId(last.key), MigrateComponent(ks, last.value), k);
      }
    }
  }

  lemma NothingFound(k: string)
    ensures Find([], k).None?
  {
  }

  /** No component is lost exactly when no two new ids collide. */
  lemma {:induction false} NothingLost(ks: seq<string>, cs: seq<Entry>)
    ensures |MigrateComponents(ks, cs)| <= |cs|
    ensures |MigrateComponents(ks, cs)| == |cs| <==> NoCollision(KeysOf(cs))
    decreases |cs|
  {
    hide Put, MigrateComponent, Find, RenameId;
    if cs == [] {
    } else {
      var init, last := cs[..|cs| - 1], cs[|cs| - 1];
      NothingLost(ks, init);
      MigratedKeys(ks, init, RenameId(last.key));
      var a, b := KeysOf(init), KeysOf(cs);
      assert forall i :: 0 <= i < |a| ==> b[i] == a[i];
      assert b[|a|] == last.key;
      if NoCollision(a) && !(exists i :: 0 <= i < |init| && RenameId(init[i].key) == RenameId(last.key)) {
        assert NoCollision(b);
      }
      if NoCollision(b) {
        assert NoCollision(a);
        forall i | 0 <= i < |init| ensures RenameId(init[i].key) != RenameId(last.key) {
          assert RenameId(b[i]) != RenameId(b[|a|]);
        }
      }
    }
  }

  /** Without collisions every component is found, migrated, under its new id. */
  lemma {:induction false} ComponentMoves(ks: seq<string>, cs: seq<Entry>, i: nat)
    requires i < |cs| && NoCollision(KeysOf(cs))
    ensures Find(MigrateComponents(ks, cs), RenameId(cs[i].key)) == Some(MigrateComponent(ks, cs[i].value))
    decreases |cs|
  {
    hide Put, MigrateComponent, Find, RenameId;
    var init, last := cs[..|cs| - 1], cs[|cs| - 1];
    if i >= |init| {
    } else {
      var a, b := KeysOf(init), KeysOf(cs);
      assert forall j :: 0 <= j < |a| ==> b[j] == a[j];
      ComponentMoves(ks, init, i);
      assert RenameId(b[i]) != RenameId(b[|a|]);
      PutOther(MigrateComponents(ks, init), RenameId(last.key), MigrateComponent(ks, last.value), RenameId(cs[i].key));
    }
  }

  /** A text that is no more than an id. */
  ghost predicate PlainId(v: Json) {
    v.Str? && '{' !in v.s
  }

  /** The same list, with every plain id mapped. */
  ghost predicate LinksMapped(m: IdMap, items: seq<Json>, o: Option<Json>) {
    && o.Some? && o.value.List? && |o.value.items| == |items|
    && forall i :: 0 <= i < |items| && PlainId(items[i]) ==> o.value.items[i] == GetItem(m, items[i])
  }

  lemma {:induction false} RewrittenFind(m: IdMap, es: seq<Entry>, k: string)
    ensures Find(RewriteEntries(m, es), k) ==
            match Find(es, k) case None => None case Some(v) => Some(RewriteValue(m, v))
    decreases |es|
  {
    hide RewriteValue;
    if es == [] {
    } else {
      RewrittenFind(m, es[1..], k);
      assert RewriteEntries(m, es)[1..] == RewriteEntries(m, es[1..]);
    }
  }

  /** Links are mapped by the general rewriting and again by their own pass; the second time
      changes nothing, so they end up mapped once. */
  lemma MappedOnce(ks: seq<string>, x: string)
    requires '{' !in x
    ensures Get(IdMapOf(ks), RewriteText(IdMapOf(ks), x)) == Get(IdMapOf(ks), x)
  {
    hide Substitute;
    SubstitutePlain(IdMapOf(ks), x);
    RenameIdTwice(x);
  }

  /** The links of a migrated component are the images of its old links, in order. */
  lemma LinksFollow(ks: seq<string>, es: seq<Entry>, key: string, items: seq<Json>)
    requires key in {"downstream", "upstream"} && Find(es, key) == Some(List(items))
    ensures MigrateComponent(ks, Dict(es)).Dict?
    ensures LinksMapped(IdMapOf(ks), items, Find(MigrateComponent(ks, Dict(es)).entries, key))
  {
    var m := IdMapOf(ks);
    var rewritten := RewriteEntries(m, es);
    var steps := COMPONENT.steps;
    SchemaOk();
    RewrittenFind(m, es, key);
    hide Find, Put, RewriteText, IdMapOf, TreatSteps;
    var j: nat := if key == "downstream" then 1 else 2;
    StepsAt(ks, steps, rewritten, j);
    var once := RewriteItems(m, items);
    forall i | 0 <= i < |items| && PlainId(items[i]) ensures GetItem(m, once[i]) == GetItem(m, items[i]) {
      MappedOnce(ks, items[i].s);
    }
    assert Find(MigrateComponent(ks, Dict(es)).entries, key) == Some(List(GetItems(m, once)));
  }

  /** The parent of a migrated component is the image of its old parent. */
  lemma ParentFollows(ks: seq<string>, es: seq<Entry>, x: string)
    requires Find(es, "parent_id") == Some(Str(x)) && '{' !in x
    ensures MigrateComponent(ks, Dict(es)).Dict?
    ensures Find(MigrateComponent(ks, Dict(es)).entries, "parent_id") == Some(Str(Get(IdMapOf(ks), x)))
  {
    var m := IdMapOf(ks);
    SchemaOk();
    RewrittenFind(m, es, "parent_id");
    hide Find, Put, RewriteText, IdMapOf, TreatSteps;
    StepsAt(ks, COMPONENT.steps, RewriteEntries(m, es), 3);
    MappedOnce(ks, x);
  }

  ghost predicate HasComponents(d: Json, cs: seq<Entry>) {
    d.Dict? && Find(d.entries, "components") == Some(Dict(cs))
  }

  /** What is stored in a description under an id and a key of that component. */
  ghost function Stored(d: Json, id: string, key: string): Option<Json> {
    if !d.Dict? || Find(d.entries, "components").None? || !Find(d.entries, "components").value.Dict? then None
    else
      var c := Find(Find(d.entries, "components").value.entries, id);
      if c.None? || !c.value.Dict? then None else Find(c.value.entries, key)
  }

  lemma MigratedComponents(d: Json, cs: seq<Entry>)
    requires HasComponents(d, cs)
    ensures HasComponents(Normalize(d), MigrateComponents(KeysOf(cs), cs))
  {
    var ks := KeysOf(cs);
    hide TreatSteps, MigrateComponents, Put, Find;
    SchemaOk();
    StepsOther(ks, REST, Put(d.entries, "components", Dict(MigrateComponents(ks, cs))), "components");
  }

  /** The migrated graph is the old graph seen through the id map: without collisions, every
      component's links, read under its new id, are the images of its old links. */
  lemma GraphFollows(d: Json, cs: seq<Entry>, i: nat, key: string, items: seq<Json>)
    requires HasComponents(d, cs) && NoCollision(KeysOf(cs)) && i < |cs|
    requires key in {"downstream", "upstream"} && Stored(d, cs[i].key, key) == Some(List(items))
    ensures LinksMapped(IdMapOf(KeysOf(cs)), items, Stored(Normalize(d), RenameId(cs[i].key), key))
  {
    var ks := KeysOf(cs);
    hide MigrateComponents, MigrateComponent, Put, RenameId, Normalize, IdMapOf, LinksMapped;
    MigratedComponents(d, cs);
    ComponentMoves(ks, cs, i);
    FindAt(cs, i);
    LinksFollow(ks, cs[i].value.entries, key, items);
  }

  /** Without collisions no key occurs twice, so a lookup finds the entry itself. */
  lemma {:induction false} FindAt(cs: seq<Entry>, i: nat)
    requires NoCollision(KeysOf(cs)) && i < |cs|
    ensures Find(cs, cs[i].key) == Some(cs[i].value)
    decreases |cs|
  {
    hide RenameId;
    var ks := KeysOf(cs);
    if i == 0 {
    } else {
      assert RenameId(ks[0]) != RenameId(ks[i]);
      assert forall j :: 0 <= j < |cs| - 1 ==> KeysOf(cs[1..])[j] == ks[j + 1];
      FindAt(cs[1..], i - 1);
    }
  }

  /** The stored path is mapped entry by entry. */
  lemma PathFollows(d: Json, cs: seq<Entry>, items: seq<Json>)
    requires HasComponents(d, cs) && Find(d.entries, "path") == Some(List(items))
    ensures Find(Normalize(d).entries, "path") == Some(List(GetItems(IdMapOf(KeysOf(cs)), items)))
  {
    var ks := KeysOf(cs);
    hide TreatSteps, MigrateComponents, Put, Find, IdMapOf, GetItems;
    SchemaOk();
    PutOther(d.entries, "components", Dict(MigrateComponents(ks, cs)), "path");
    StepsAt(ks, REST, Put(d.entries, "components", Dict(MigrateComponents(ks, cs))), 0);
  }

  lemma NoBrace(s: string)
    requires s != "" && s[0] != '{'
    ensures MatchRef(s).None? && Refs(s) == Refs(s[1..])
  {
    assert Span(OpenBrace, s) == 0;
    ScanChr(s);
    hide MatchRef, Scan;
    assert ([Chr(s[0])] + Scan(s[1..]))[1..] == Scan(s[1..]);
  }

  /** Text without an opening brace in front refers to what the rest refers to. */
  lemma {:induction false} RefsSkip(a: string, w: string)
    requires '{' !in a
    ensures Refs(a + w) == Refs(w)
    decreases |a|
  {
    hide Refs, MatchRef;
    if a == "" {
      assert a + w == w;
    } else {
      NoBrace(a + w);
      RefsSkip(a[1..], w);
      assert (a + w)[1..] == a[1..] + w;
    }
  }

  lemma RenamedRefs(x: string)
    ensures Refs(RenameId(x)) == Refs(x)
  {
    hide Refs, Marked, MarkOf;
    if Marked(x) {
      MarkParts(x);
      PrefixPlain(MarkOf(x));
      RefsSkip(MarkOf(x).legacy, x[|MarkOf(x).legacy|..]);
      RefsSkip(MarkOf(x).current, x[|MarkOf(x).legacy|..]);
    }
  }

  lemma PrefixPlain(p: Prefix)
    requires IsPrefix(p)
    ensures '{' !in p.legacy && '{' !in p.current
  {
    CurrentLike(p);
    LegacyLike(p);
    hide IsPrefix, InClass;
    Apart('{');
  }

  lemma GetEachStill(m: IdMap, ids: seq<string>)
    ensures GetEach(m, ids) == ids <==> forall x :: x in ids ==> Get(m, x) == x
  {
    if GetEach(m, ids) == ids {
      forall x | x in ids ensures Get(m, x) == x {
        var i :| 0 <= i < |ids| && ids[i] == x;
        assert GetEach(m, ids)[i] == ids[i];
      }
    }
  }

  /** The references of a text are the images of the old ones, with no condition on ids, exactly
      unless the text is itself a component id in which an id to be renamed is referred to: such a
      text is mapped as an id, and what it refers to stays. */
  lemma TextReferencesFollow(ks: seq<string>, s: string)
    ensures Refs(RewriteText(IdMapOf(ks), s)) == GetEach(IdMapOf(ks), Refs(s)) <==>
            s !in ks || forall x :: x in Refs(s) && x in ks ==> RenameId(x) == x
  {
    var m := IdMapOf(ks);
    hide Refs, RenameId, IdLike;
    if s !in ks {
      RenameIdLike(ks);
      ReferencesFollow(m, s);
    } else {
      RenamedRefs(s);
      GetEachStill(m, Refs(s));
    }
  }

  lemma OneRef(x: string)
    requires x != "" && AllIn(IdChar, x)
    ensures Refs("{" + x + "@y}") == [x]
  {
    hide MatchRef, Scan, Spell;
    var r := Ref("{", "", x, "y", "", "}");
    OneSpelled(x);
    MatchSpelled(r, "");
    ScanSpelled(r, "");
    NothingScanned();
    assert Spell(r) + "" == Spell(r);
    assert Scan(Spell(r)) == [Found(r)];
    assert [Found(r)][1..] == [] && RefsOf([Found(r)]) == [x] + RefsOf([]);
  }

  lemma OneSpelled(x: string)
    requires x != "" && AllIn(IdChar, x)
    ensures var r := Ref("{", "", x, "y", "", "}"); RefOk(r) && Spell(r) == "{" + x + "@y}"
  {
    var r := Ref("{", "", x, "y", "", "}");
    calc {
      Spell(r);
      "{" + "" + x + "@" + "y" + "" + "}";
      { assert "{" + "" == "{" && "@" + "y" + "" + "}" == "@y}"; }
      "{" + x + "@y}";
    }
  }

  /** Such a text: an id with a reference to a legacy id inside. Mapped as an id it stays as it is,
      and so does the reference. */
  lemma ReferenceStays()
    ensures var ks, s := ["Splitter:x", "{Splitter:x@y}"], "{Splitter:x@y}";
            s in ks && Refs(RewriteText(IdMapOf(ks), s)) != GetEach(IdMapOf(ks), Refs(s))
  {
    var ks, s, x := ["Splitter:x", "{Splitter:x@y}"], "{Splitter:x@y}", "Splitter:x";
    assert "{" + x + "@y}" == s && ks[0] == x && ks[1] == s;
    LegacyLike(SPLITTER);
    assert x == SPLITTER.legacy + "x";
    MarkedBy(SPLITTER, "x");
    assert RenameId(x)[0] == 'T';
    hide Refs, RenameId, IdMapOf, RewriteText, GetEach;
    OneRef(x);
    TextReferencesFollow(ks, s);
    assert x in Refs(s) && x in ks && RenameId(x) != x;
  }

  /** A collision loses a component. */
  lemma CollisionLoses(a: Json, b: Json)
    ensures var cs := [Entry("Splitter:x", a), Entry("TokenChunker:x", b)];
            |MigrateComponents(KeysOf(cs), cs)| == 1
  {
    var cs := [Entry("Splitter:x", a), Entry("TokenChunker:x", b)];
    var ks := KeysOf(cs);
    hide MigrateComponent;
    assert "Splitter:x" == SPLITTER.legacy + "x" && SPLITTER.current + "x" == "TokenChunker:x";
    MarkedBy(SPLITTER, "x");
    RenameIdTwice("Splitter:x");
    assert cs[..1] == [Entry("Splitter:x", a)] && cs[..1][..0] == [];
    assert MigrateComponents(ks, []) == [];
    assert MigrateComponents(ks, cs[..1]) == [Entry("TokenChunker:x", MigrateComponent(ks, a))];
  }
}
