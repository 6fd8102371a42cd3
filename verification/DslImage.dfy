/** The structure of a canvas description as a whole, before and after its migration. */
module DslImage {
  import opened MetaValues
  import opened DslIds
  import opened DslEdges
  import opened DslText
  import opened DslMigration

  // ---------- what a description says about ids

  /** The texts inside a value at any depth, in order, and the ids they refer to. */
  datatype Words = Words(texts: seq<string>, refs: seq<string>)

  /** A component: its id, its class name, its links, and all other texts in it. */
  datatype ComponentView = ComponentView(id: string, name: Option<string>, downstream: seq<string>,
                                         upstream: seq<string>, parent: Option<string>, words: Words)

  datatype NodeView = NodeView(id: Option<string>, parent: Option<string>, form: Words)

  datatype EdgeView = EdgeView(source: Option<string>, target: Option<string>, id: Option<string>)

  /** All ids a description mentions, place by place; `said` holds history, messages and reference. */
  datatype View = View(components: seq<ComponentView>, path: seq<string>, nodes: seq<NodeView>, edges: seq<EdgeView>,
                       said: seq<Words>)

  function At(v: Json, key: string): Option<Json> {
    if v.Dict? then Find(v.entries, key) else None
  }

  function TextOf(o: Option<Json>): Option<string> {
    match o case Some(Str(s)) => Some(s) case _ => None
  }

  function ItemsOf(o: Option<Json>): seq<Json> {
    match o case Some(List(items)) => items case _ => []
  }

  /** The texts of a list. */
  function Texts(items: seq<Json>): seq<string> {
    if items == [] then [] else (if items[0].Str? then [items[0].s] else []) + Texts(items[1..])
  }

  /** The texts inside a value, at any depth. */
  function TextsIn(v: Json): seq<string>
    decreases v, 1
  {
    match v
    case Str(s) => [s]
    case List(items) => TextsInItems(items)
    case Dict(es) => TextsInEntries(es)
    case Atom(_) => []
  }

  function TextsInItems(items: seq<Json>): seq<string>
    decreases items, 0
  {
    if items == [] then [] else TextsIn(items[0]) + TextsInItems(items[1..])
  }

  function TextsInEntries(es: seq<Entry>): seq<string>
    decreases es, 0
  {
    if es == [] then [] else TextsIn(es[0].value) + TextsInEntries(es[1..])
  }

  function RefsEach(ss: seq<string>): seq<string> {
    if ss == [] then [] else Refs(ss[0]) + RefsEach(ss[1..])
  }

  function WordsOf(v: Json): Words {
    Words(TextsIn(v), RefsEach(TextsIn(v)))
  }

  function WordsAt(o: Option<Json>): Words {
    match o case None => Words([], []) case Some(v) => WordsOf(v)
  }

  /** The class name of a component. */
  function NameOf(v: Json): Option<string> {
    match At(v, "obj") case None => None case Some(obj) => TextOf(At(obj, "component_name"))
  }

  /** A component with its class name blanked out. */
  function Unnamed(v: Json): Json {
    match At(v, "obj")
    case Some(Dict(o)) => Dict(Put(v.entries, "obj", Dict(Put(o, "component_name", Atom("None")))))
    case _ => v
  }

  function ViewComponent(e: Entry): ComponentView {
    ComponentView(e.key, NameOf(e.value),
                  Texts(ItemsOf(At(e.value, "downstream"))), Texts(ItemsOf(At(e.value, "upstream"))),
                  TextOf(At(e.value, "parent_id")), WordsOf(Unnamed(e.value)))
  }

  function ViewNode(v: Json): NodeView {
    var form := match At(v, "data") case None => None case Some(data) => At(data, "form");
    NodeView(TextOf(At(v, "id")), TextOf(At(v, "parentId")), WordsAt(form))
  }

  function ViewEdge(v: Json): EdgeView {
    EdgeView(TextOf(At(v, "source")), TextOf(At(v, "target")), TextOf(At(v, "id")))
  }

  function InGraph(d: Json, key: string): seq<Json> {
    match At(d, "graph") case None => [] case Some(graph) => ItemsOf(At(graph, key))
  }

  function ViewOf(d: Json): View {
    var components := match At(d, "components") case Some(Dict(es)) => es case _ => [];
    View(ViewComponents(components), Texts(ItemsOf(At(d, "path"))),
         ViewNodes(InGraph(d, "nodes")), ViewEdges(InGraph(d, "edges")),
         [WordsAt(At(d, "history")), WordsAt(At(d, "messages")), WordsAt(At(d, "reference"))])
  }

  function ViewComponents(es: seq<Entry>): (r: seq<ComponentView>)
    ensures |r| == |es| && forall i :: 0 <= i < |r| ==> r[i] == ViewComponent(es[i])
  {
    seq(|es|, i requires 0 <= i < |es| => ViewComponent(es[i]))
  }

  function ViewNodes(items: seq<Json>): (r: seq<NodeView>)
    ensures |r| == |items| && forall i :: 0 <= i < |r| ==> r[i] == ViewNode(items[i])
  {
    seq(|items|, i requires 0 <= i < |items| => ViewNode(items[i]))
  }

  function ViewEdges(items: seq<Json>): (r: seq<EdgeView>)
    ensures |r| == |items| && forall i :: 0 <= i < |r| ==> r[i] == ViewEdge(items[i])
  {
    seq(|items|, i requires 0 <= i < |items| => ViewEdge(items[i]))
  }

  // ---------- the image of a view under the id map

  function GetSome(m: IdMap, x: Option<string>): Option<string> {
    match x case None => None case Some(s) => Some(Get(m, s))
  }

  /** Texts, and the links of components among them: an id is mapped, other text has the ids in its
      references mapped. */
  function RewriteEach(m: IdMap, ss: seq<string>): (r: seq<string>)
    ensures |r| == |ss| && forall i :: 0 <= i < |r| ==> r[i] == RewriteText(m, ss[i])
  {
    seq(|ss|, i requires 0 <= i < |ss| => RewriteText(m, ss[i]))
  }

  function RewriteSome(m: IdMap, x: Option<string>): Option<string> {
    match x case None => None case Some(s) => Some(RewriteText(m, s))
  }

  function ImageWords(m: IdMap, w: Words): Words {
    Words(RewriteEach(m, w.texts), GetEach(m, w.refs))
  }

  function ImageName(m: IdMap, x: Option<string>): Option<string> {
    match x case None => None case Some(s) => Some(RenameName(RewriteText(m, s)))
  }

  function ImageComponent(m: IdMap, c: ComponentView): ComponentView {
    ComponentView(Get(m, c.id), ImageName(m, c.name), RewriteEach(m, c.downstream), RewriteEach(m, c.upstream),
                  RewriteSome(m, c.parent), ImageWords(m, c.words))
  }

  function ImageNode(m: IdMap, n: NodeView): NodeView {
    NodeView(GetSome(m, n.id), GetSome(m, n.parent), ImageWords(m, n.form))
  }

  /** In the id of an edge, the legacy prefix of every id that starts there is exchanged. */
  ghost function ImageEdge(ks: seq<string>, e: EdgeView): EdgeView {
    var m := IdMapOf(ks);
    EdgeView(GetSome(m, e.source), GetSome(m, e.target), match e.id case None => None case Some(s) => Some(Pass(s, ks)))
  }

  function EdgeEnds(e: EdgeView): EdgeView { e.(id := None) }

  function EdgeEndsEach(es: seq<EdgeView>): (r: seq<EdgeView>)
    ensures |r| == |es| && forall i :: 0 <= i < |r| ==> r[i] == EdgeEnds(es[i])
  {
    seq(|es|, i requires 0 <= i < |es| => EdgeEnds(es[i]))
  }

  /** A view without the ids of edges. */
  function WithoutEdgeIds(w: View): View { w.(edges := EdgeEndsEach(w.edges)) }

  ghost function Image(ks: seq<string>, w: View): View {
    var m := IdMapOf(ks);
    View(seq(|w.components|, i requires 0 <= i < |w.components| => ImageComponent(m, w.components[i])),
         GetEach(m, w.path),
         seq(|w.nodes|, i requires 0 <= i < |w.nodes| => ImageNode(m, w.nodes[i])),
         seq(|w.edges|, i requires 0 <= i < |w.edges| => ImageEdge(ks, w.edges[i])),
         seq(|w.said|, i requires 0 <= i < |w.said| => ImageWords(m, w.said[i])))
  }

  // ---------- texts and links

  /** Ids that contain an opening brace are current, and refer to no id that is to be renamed. */
  ghost predicate Inert(ks: seq<string>) {
    forall k :: k in ks && '{' in k ==> RenameId(k) == k && forall x :: x in Refs(k) && x in ks ==> RenameId(x) == x
  }

  lemma NoRefs(s: string)
    requires '{' !in s
    ensures Refs(s) == []
  {
    RefsSkip(s, "");
    assert s + "" == s;
    NothingScanned();
  }

  lemma TextFollows(ks: seq<string>, s: string)
    requires Inert(ks)
    ensures Refs(RewriteText(IdMapOf(ks), s)) == GetEach(IdMapOf(ks), Refs(s))
  {
    hide Refs, RewriteText, RenameId;
    TextReferencesFollow(ks, s);
    if s in ks && '{' !in s { NoRefs(s); }
  }

  lemma BraceKept(m: IdMap, s: string)
    requires '{' in s
    ensures '{' in Substitute(m, s)
  {
    hide Substitute, MatchRef;
    var n := Untouched(m, s);
    if n == |s| { assert s[..n] == s && Substitute(m, s)[..n] == Substitute(m, s); }
  }

  /** Mapping a text that has been rewritten, as an id, changes nothing more. */
  lemma LinkOnce(ks: seq<string>, x: string)
    requires Inert(ks)
    ensures Get(IdMapOf(ks), RewriteText(IdMapOf(ks), x)) == RewriteText(IdMapOf(ks), x)
  {
    hide Substitute, Marked, MarkOf, Refs, RenameId;
    var m := IdMapOf(ks);
    if x in ks {
      RenameIdTwice(x);
    } else if '{' in x {
      BraceKept(m, x);
    } else {
      SubstitutePlain(m, x);
    }
  }

  lemma {:induction false} RefsEachFollow(ks: seq<string>, ss: seq<string>)
    requires Inert(ks)
    ensures RefsEach(RewriteEach(IdMapOf(ks), ss)) == GetEach(IdMapOf(ks), RefsEach(ss))
    decreases |ss|
  {
    hide Inert, IdMapOf, Refs, RewriteText;
    var m := IdMapOf(ks);
    var r := RewriteEach(m, ss);
    if ss == [] {
    } else {
      TextFollows(ks, ss[0]);
      RefsEachFollow(ks, ss[1..]);
      assert r[1..] == RewriteEach(m, ss[1..]);
      EachSum(m, Refs(ss[0]), RefsEach(ss[1..]));
    }
  }

  lemma EachSum(m: IdMap, a: seq<string>, b: seq<string>)
    ensures GetEach(m, a + b) == GetEach(m, a) + GetEach(m, b)
  {
  }

  lemma RewriteSum(m: IdMap, a: seq<string>, b: seq<string>)
    ensures RewriteEach(m, a + b) == RewriteEach(m, a) + RewriteEach(m, b)
  {
    hide RewriteText;
  }

  /** The texts of a rewritten value, at any depth, are the old ones rewritten: whatever the ids. */
  lemma {:induction false} ValueFollows(m: IdMap, v: Json)
    ensures TextsIn(RewriteValue(m, v)) == RewriteEach(m, TextsIn(v))
    decreases v, 1
  {
    hide RewriteText;
    match v {
      case Str(s) =>
      case List(items) => ItemsFollow(m, items);
      case Dict(es) => EntriesFollow(m, es);
      case Atom(_) =>
    }
  }

  lemma {:induction false} ItemsFollow(m: IdMap, items: seq<Json>)
    ensures TextsInItems(RewriteItems(m, items)) == RewriteEach(m, TextsInItems(items))
    decreases items, 0
  {
    hide TextsIn, RewriteValue, RewriteText;
    var r := RewriteItems(m, items);
    if items == [] {
    } else {
      ValueFollows(m, items[0]);
      ItemsFollow(m, items[1..]);
      assert r[1..] == RewriteItems(m, items[1..]);
      RewriteSum(m, TextsIn(items[0]), TextsInItems(items[1..]));
    }
  }

  lemma {:induction false} EntriesFollow(m: IdMap, es: seq<Entry>)
    ensures TextsInEntries(RewriteEntries(m, es)) == RewriteEach(m, TextsInEntries(es))
    decreases es, 0
  {
    hide TextsIn, RewriteValue, RewriteText;
    var r := RewriteEntries(m, es);
    if es == [] {
    } else {
      ValueFollows(m, es[0].value);
      EntriesFollow(m, es[1..]);
      assert r[1..] == RewriteEntries(m, es[1..]);
      RewriteSum(m, TextsIn(es[0].value), TextsInEntries(es[1..]));
    }
  }

  lemma WordsFollow(ks: seq<string>, v: Json)
    requires Inert(ks)
    ensures WordsOf(RewriteValue(IdMapOf(ks), v)) == ImageWords(IdMapOf(ks), WordsOf(v))
  {
    hide Inert, IdMapOf, TextsIn, RewriteValue, RefsEach;
    ValueFollows(IdMapOf(ks), v);
    RefsEachFollow(ks, TextsIn(v));
  }

  lemma {:induction false} TextsRewritten(m: IdMap, items: seq<Json>)
    ensures Texts(RewriteItems(m, items)) == RewriteEach(m, Texts(items))
    decreases |items|
  {
    hide RewriteText;
    var r := RewriteItems(m, items);
    if items == [] {
    } else {
      TextsRewritten(m, items[1..]);
      assert r[1..] == RewriteItems(m, items[1..]);
    }
  }

  lemma {:induction false} TextsMapped(m: IdMap, items: seq<Json>)
    ensures Texts(GetItems(m, items)) == GetEach(m, Texts(items))
    decreases |items|
  {
    var r := GetItems(m, items);
    if items == [] {
    } else {
      TextsMapped(m, items[1..]);
      assert r[1..] == GetItems(m, items[1..]);
    }
  }

  // ---------- a migrated component is the rewritten one, but for its class name

  lemma ItemOnce(ks: seq<string>, v: Json)
    requires Inert(ks)
    ensures GetItem(IdMapOf(ks), RewriteValue(IdMapOf(ks), v)) == RewriteValue(IdMapOf(ks), v)
  {
    hide Inert, IdMapOf, RewriteText;
    if v.Str? { LinkOnce(ks, v.s); }
  }

  /** The passes over links and parents change nothing that rewriting has not changed. */
  lemma TreatOnce(ks: seq<string>, how: Treatment, v: Json)
    requires Inert(ks) && how in {IdList, IdText}
    ensures Treat(ks, how, RewriteValue(IdMapOf(ks), v)) == RewriteValue(IdMapOf(ks), v)
  {
    hide Inert, IdMapOf, GetItem;
    var m := IdMapOf(ks);
    match how {
      case IdText => ItemOnce(ks, v);
      case IdList =>
        if v.List? {
          var r := RewriteItems(m, v.items);
          forall i | 0 <= i < |r| ensures GetItem(m, r[i]) == r[i] { ItemOnce(ks, v.items[i]); }
          assert GetItems(m, r) == r;
        }
    }
  }

  lemma {:induction false} PutTwice(es: seq<Entry>, k: string, v: Json, w: Json)
    ensures Put(Put(es, k, v), k, w) == Put(es, k, w)
    decreases |es|
  {
    if es == [] {
    } else if es[0].key == k {
      assert Put(es, k, v)[1..] == es[1..];
    } else {
      PutTwice(es[1..], k, v, w);
      assert Put(es, k, v)[0] == es[0] && Put(es, k, v)[1..] == Put(es[1..], k, v);
    }
  }

  lemma RewriteCons(m: IdMap, e: Entry, es: seq<Entry>)
    ensures RewriteEntries(m, [e] + es) == [Entry(e.key, RewriteValue(m, e.value))] + RewriteEntries(m, es)
  {
    hide RewriteValue;
  }

  lemma {:induction false} RewritePut(m: IdMap, es: seq<Entry>, k: string, v: Json)
    ensures RewriteEntries(m, Put(es, k, v)) == Put(RewriteEntries(m, es), k, RewriteValue(m, v))
    decreases |es|
  {
    hide RewriteValue, RewriteEntries, Put;
    if es == [] {
      PutNone(m, k, v);
    } else {
      var head := Entry(es[0].key, RewriteValue(m, es[0].value));
      assert es == [es[0]] + es[1..];
      RewriteCons(m, es[0], es[1..]);
      var r := [head] + RewriteEntries(m, es[1..]);
      assert r[1..] == RewriteEntries(m, es[1..]);
      PutFirst(es, k, v);
      PutFirst(r, k, RewriteValue(m, v));
      if es[0].key == k {
        RewriteCons(m, Entry(k, v), es[1..]);
      } else {
        RewritePut(m, es[1..], k, v);
        RewriteCons(m, es[0], Put(es[1..], k, v));
      }
    }
  }

  lemma PutNone(m: IdMap, k: string, v: Json)
    ensures RewriteEntries(m, Put([], k, v)) == Put(RewriteEntries(m, []), k, RewriteValue(m, v))
  {
    hide RewriteValue;
    assert RewriteEntries(m, []) == [];
  }

  lemma RewriteDict(m: IdMap, es: seq<Entry>)
    ensures RewriteValue(m, Dict(es)) == Dict(RewriteEntries(m, es))
  {
    hide RewriteEntries;
  }

  /** What the first pass over a component does. */
  function NameStep(ks: seq<string>, es: seq<Entry>): seq<Entry> {
    match Find(es, "obj")
    case None => es
    case Some(o) => Put(es, "obj", Treat(ks, ComponentName, o))
  }

  /** And it is the only one that changes a rewritten component. */
  lemma {:induction false} OnlyNameStep(ks: seq<string>, es: seq<Entry>, n: nat)
    requires Inert(ks) && 1 <= n <= |COMPONENT.steps|
    ensures var r := RewriteEntries(IdMapOf(ks), es); TreatSteps(ks, COMPONENT.steps[..n], r) == NameStep(ks, r)
    decreases n
  {
    hide Inert, IdMapOf, Find, Put, Treat, RewriteValue;
    var r := RewriteEntries(IdMapOf(ks), es);
    var steps := COMPONENT.steps;
    var before, step := TreatSteps(ks, steps[..n - 1], r), steps[n - 1];
    assert steps[..n][..n - 1] == steps[..n - 1] && steps[..n][n - 1] == step;
    if n == 1 {
      assert steps[..0] == [];
      NoSteps(ks, r);
      assert step == Step("obj", ComponentName);
    } else {
      OnlyNameStep(ks, es, n - 1);
      LinkStep(n - 1);
      KeptElsewhere(ks, es, step.key);
      match Find(es, step.key) {
        case None =>
        case Some(u) =>
          TreatOnce(ks, step.how, u);
          PutSame(before, step.key);
      }
    }
  }

  lemma LinkStep(j: nat)
    requires 1 <= j < |COMPONENT.steps|
    ensures COMPONENT.steps[j].how in {IdList, IdText} && COMPONENT.steps[j].key != "obj"
  {
  }

  lemma KeptElsewhere(ks: seq<string>, es: seq<Entry>, k: string)
    requires k != "obj"
    ensures Find(NameStep(ks, RewriteEntries(IdMapOf(ks), es)), k) ==
            match Find(es, k) case None => None case Some(u) => Some(RewriteValue(IdMapOf(ks), u))
  {
    hide Find, Put, Treat, RewriteValue, IdMapOf;
    var r := RewriteEntries(IdMapOf(ks), es);
    RewrittenFind(IdMapOf(ks), es, k);
    match Find(r, "obj") {
      case None =>
      case Some(o) => PutOther(r, "obj", Treat(ks, ComponentName, o), k);
    }
  }

  lemma ComponentIs(ks: seq<string>, es: seq<Entry>)
    requires Inert(ks)
    ensures MigrateComponent(ks, Dict(es)) == Dict(NameStep(ks, RewriteEntries(IdMapOf(ks), es)))
  {
    hide Inert, IdMapOf, NameStep, TreatSteps;
    OnlyNameStep(ks, es, |COMPONENT.steps|);
    assert COMPONENT.steps[..|COMPONENT.steps|] == COMPONENT.steps;
  }

  /** But for its class name, a migrated component is the component rewritten. */
  lemma ComponentRewritten(ks: seq<string>, v: Json)
    requires Inert(ks)
    ensures Unnamed(MigrateComponent(ks, v)) == RewriteValue(IdMapOf(ks), Unnamed(v))
  {
    if v.Dict? {
      EntriesRewritten(ks, v.entries);
    } else {
      NoDict(ks, v);
    }
  }

  lemma EntriesRewritten(ks: seq<string>, es: seq<Entry>)
    requires Inert(ks)
    ensures Unnamed(MigrateComponent(ks, Dict(es))) == RewriteValue(IdMapOf(ks), Unnamed(Dict(es)))
  {
    hide Inert, IdMapOf, Find, Put, MigrateComponent, RewriteValue, RewriteEntries;
    var m := IdMapOf(ks);
    var r := RewriteEntries(m, es);
    ComponentIs(ks, es);
    RewrittenFind(m, es, "obj");
    RewriteDict(m, es);
    match Find(es, "obj") {
      case None =>
      case Some(Dict(o)) => NamedRewritten(ks, es, o);
      case Some(u) =>
        NoDict(ks, u);
        PutSame(r, "obj");
    }
  }

  lemma NoDict(ks: seq<string>, v: Json)
    requires !v.Dict?
    ensures MigrateComponent(ks, v) == RewriteValue(IdMapOf(ks), v) && !RewriteValue(IdMapOf(ks), v).Dict?
  {
    hide RewriteItems, RewriteText;
  }

  lemma NamedRewritten(ks: seq<string>, es: seq<Entry>, o: seq<Entry>)
    requires Find(es, "obj") == Some(Dict(o))
    ensures var m := IdMapOf(ks);
            Unnamed(Dict(NameStep(ks, RewriteEntries(m, es)))) == RewriteValue(m, Unnamed(Dict(es)))
  {
    hide IdMapOf, Find, Put, RewriteValue, RewriteEntries, CurrentName;
    var m := IdMapOf(ks);
    var r, o' := RewriteEntries(m, es), RewriteEntries(m, o);
    RewriteDict(m, o);
    RewrittenFind(m, es, "obj");
    var none := Atom("None");
    var named := Put(o', "component_name", CurrentName(Find(o', "component_name")));
    var blank := Put(o, "component_name", none);
    assert NameStep(ks, r) == Put(r, "obj", Dict(named));
    PutTwice(o', "component_name", CurrentName(Find(o', "component_name")), none);
    PutTwice(r, "obj", Dict(named), Dict(Put(o', "component_name", none)));
    RewriteNone(m);
    RewritePut(m, o, "component_name", none);
    RewriteDict(m, blank);
    RewritePut(m, es, "obj", Dict(blank));
    RewriteDict(m, Put(es, "obj", Dict(blank)));
  }

  lemma RewriteNone(m: IdMap)
    ensures RewriteValue(m, Atom("None")) == Atom("None")
  {
  }

  lemma NameFollows(ks: seq<string>, v: Json)
    requires Inert(ks)
    ensures NameOf(MigrateComponent(ks, v)) == ImageName(IdMapOf(ks), NameOf(v))
  {
    if v.Dict? {
      hide Inert, IdMapOf, Find, Put, MigrateComponent, NameStep, RewriteValue, RewriteEntries, ImageName;
      ComponentIs(ks, v.entries);
      RewrittenFind(IdMapOf(ks), v.entries, "obj");
      var r := RewriteEntries(IdMapOf(ks), v.entries);
      match Find(v.entries, "obj") {
        case None => ObjNone(ks, r);
        case Some(u) => if u.Dict? { ObjName(ks, r, u.entries); } else { ObjOther(ks, r, u); }
      }
    } else {
      NoDict(ks, v);
    }
  }

  lemma ObjNone(ks: seq<string>, r: seq<Entry>)
    requires Find(r, "obj").None?
    ensures NameOf(Dict(NameStep(ks, r))) == None == ImageName(IdMapOf(ks), None)
  {
    hide Find, IdMapOf;
  }

  lemma ObjOther(ks: seq<string>, r: seq<Entry>, u: Json)
    requires !u.Dict? && Find(r, "obj") == Some(RewriteValue(IdMapOf(ks), u))
    ensures NameOf(Dict(NameStep(ks, r))) == None == ImageName(IdMapOf(ks), None)
  {
    hide Find, Put, IdMapOf, RewriteValue;
    NoDict(ks, u);
  }

  lemma ObjName(ks: seq<string>, r: seq<Entry>, o: seq<Entry>)
    requires Find(r, "obj") == Some(RewriteValue(IdMapOf(ks), Dict(o)))
    ensures NameOf(Dict(NameStep(ks, r))) == ImageName(IdMapOf(ks), TextOf(Find(o, "component_name")))
  {
    hide IdMapOf, Find, Put, RewriteText, RenameName, RewriteEntries;
    RewriteDict(IdMapOf(ks), o);
    RewrittenFind(IdMapOf(ks), o, "component_name");
  }

  // ---------- the parts of a description

  /** What a component holds after the migration where its links are stored. */
  lemma ComponentAt(ks: seq<string>, v: Json, key: string)
    requires Inert(ks) && key != "obj"
    ensures At(MigrateComponent(ks, v), key) ==
            match At(v, key) case None => None case Some(u) => Some(RewriteValue(IdMapOf(ks), u))
  {
    if v.Dict? {
      hide Inert, IdMapOf, Find, NameStep, MigrateComponent, RewriteValue;
      ComponentIs(ks, v.entries);
      KeptElsewhere(ks, v.entries, key);
    } else {
      NoDict(ks, v);
    }
  }

  lemma LinksRewritten(m: IdMap, o: Option<Json>)
    ensures var o' := match o case None => None case Some(u) => Some(RewriteValue(m, u));
            Texts(ItemsOf(o')) == RewriteEach(m, Texts(ItemsOf(o)))
  {
    hide RewriteText, Texts;
    TextsRewritten(m, ItemsOf(o));
    TextsRewritten(m, []);
    assert RewriteItems(m, []) == [];
  }

  lemma ComponentFollows(ks: seq<string>, e: Entry)
    requires Inert(ks) && e.key in ks
    ensures ViewComponent(Entry(RenameId(e.key), MigrateComponent(ks, e.value))) ==
            ImageComponent(IdMapOf(ks), ViewComponent(e))
  {
    hide Inert, MigrateComponent, At, WordsOf, RewriteEach, Texts, RenameId, Unnamed, NameOf, ImageName, ImageWords;
    var m := IdMapOf(ks);
    ComponentRewritten(ks, e.value);
    WordsFollow(ks, Unnamed(e.value));
    NameFollows(ks, e.value);
    ComponentAt(ks, e.value, "downstream");
    ComponentAt(ks, e.value, "upstream");
    ComponentAt(ks, e.value, "parent_id");
    LinksRewritten(m, At(e.value, "downstream"));
    LinksRewritten(m, At(e.value, "upstream"));
  }

  /** Without collisions the components keep their order. */
  lemma {:induction false} ComponentsInOrder(ks: seq<string>, cs: seq<Entry>)
    requires NoCollision(KeysOf(cs))
    ensures var r := MigrateComponents(ks, cs);
            |r| == |cs| && forall i :: 0 <= i < |r| ==>
                r[i] == Entry(RenameId(cs[i].key), MigrateComponent(ks, cs[i].value))
    decreases |cs|
  {
    hide Put, MigrateComponent, Find, RenameId;
    if cs == [] {
    } else {
      var init, last := cs[..|cs| - 1], cs[|cs| - 1];
      var a, b := KeysOf(init), KeysOf(cs);
      assert forall j :: 0 <= j < |a| ==> b[j] == a[j];
      ComponentsInOrder(ks, init);
      var before := MigrateComponents(ks, init);
      forall i | 0 <= i < |before| ensures before[i].key != RenameId(last.key) {
        assert RenameId(b[i]) != RenameId(b[|a|]);
      }
      var n := PutPlace(before, RenameId(last.key), MigrateComponent(ks, last.value));
    }
  }

  /** What the migrated description holds under the keys treated after the components. */
  lemma RestAt(d: Json, cs: seq<Entry>, j: nat)
    requires HasComponents(d, cs) && j < |REST|
    ensures At(Normalize(d), REST[j].key) ==
            match At(d, REST[j].key) case None => None case Some(v) => Some(Treat(KeysOf(cs), REST[j].how, v))
  {
    var ks := KeysOf(cs);
    hide TreatSteps, MigrateComponents, Put, Find, Treat;
    SchemaOk();
    PutOther(d.entries, "components", Dict(MigrateComponents(ks, cs)), REST[j].key);
    StepsAt(ks, REST, Put(d.entries, "components", Dict(MigrateComponents(ks, cs))), j);
  }

  /** What a treated dictionary holds under the key of a step. */
  lemma InsideAt(ks: seq<string>, steps: seq<Step>, v: Json, j: nat)
    requires StepsOk(steps) && j < |steps|
    ensures At(Treat(ks, Inside(steps), v), steps[j].key) ==
            match At(v, steps[j].key) case None => None case Some(u) => Some(Treat(ks, steps[j].how, u))
  {
    hide Find, TreatSteps;
    if v.Dict? { StepsAt(ks, steps, v.entries, j); }
  }

  lemma MapsId(ks: seq<string>, o: Option<Json>)
    ensures TextOf(match o case None => None case Some(u) => Some(Treat(ks, IdText, u))) ==
        GetSome(IdMapOf(ks), TextOf(o))
  {
    hide IdMapOf;
  }

  lemma NoWords(m: IdMap)
    ensures ImageWords(m, Words([], [])) == Words([], [])
  {
  }

  lemma NodeFollows(ks: seq<string>, v: Json)
    requires Inert(ks)
    ensures ViewNode(Treat(ks, NODE, v)) == ImageNode(IdMapOf(ks), ViewNode(v))
  {
    StepsOkNode();
    hide Inert, At, WordsOf, ImageWords, Treat, RewriteValue, IdMapOf, StepsOk;
    InsideAt(ks, NODE.steps, v, 0);
    InsideAt(ks, NODE.steps, v, 1);
    InsideAt(ks, NODE.steps, v, 3);
    NoWords(IdMapOf(ks));
    MapsId(ks, At(v, "id"));
    MapsId(ks, At(v, "parentId"));
    match At(v, "data") {
      case None =>
      case Some(data) =>
        InsideAt(ks, DATA.steps, data, 2);
        match At(data, "form") {
          case None =>
          case Some(form) => WholeFollows(ks, form);
        }
    }
  }

  lemma StepsOkNode()
    ensures StepsOk(NODE.steps) && StepsOk(DATA.steps) && StepsOk(EDGE.steps) && StepsOk(GRAPH.steps)
  {
  }

  lemma WholeFollows(ks: seq<string>, v: Json)
    requires Inert(ks)
    ensures WordsOf(Treat(ks, Whole, v)) == ImageWords(IdMapOf(ks), WordsOf(v))
  {
    hide Inert, IdMapOf, WordsOf, ImageWords, RewriteValue;
    WordsFollow(ks, v);
  }

  lemma EdgeFollows(ks: seq<string>, v: Json)
    ensures EdgeEnds(ViewEdge(Treat(ks, EDGE, v))) == EdgeEnds(ImageEdge(ks, ViewEdge(v)))
    ensures ViewEdge(Treat(ks, EDGE, v)).id ==
            match ViewEdge(v).id case None => None case Some(s) => Some(ReplaceIds(s, ByLength(ks)))
  {
    StepsOkNode();
    hide At, Treat, IdMapOf, StepsOk, Pass, ReplaceIds, ByLength;
    InsideAt(ks, EDGE.steps, v, 0);
    InsideAt(ks, EDGE.steps, v, 1);
    InsideAt(ks, EDGE.steps, v, 2);
    MapsId(ks, At(v, "source"));
    MapsId(ks, At(v, "target"));
    ReplacesIds(ks, At(v, "id"));
  }

  lemma ReplacesIds(ks: seq<string>, o: Option<Json>)
    ensures TextOf(match o case None => None case Some(u) => Some(Treat(ks, EdgeText, u))) ==
            match TextOf(o) case None => None case Some(s) => Some(ReplaceIds(s, ByLength(ks)))
  {
    hide ReplaceIds, ByLength;
  }

  /** For solid ids, the id of an edge is mapped as well. */
  lemma SolidEdgeFollows(ks: seq<string>, v: Json)
    requires AllSolid(ks)
    ensures ViewEdge(Treat(ks, EDGE, v)) == ImageEdge(ks, ViewEdge(v))
  {
    EdgeFollows(ks, v);
    hide Treat, IdMapOf, Pass, ReplaceIds, ByLength, AllSolid, At;
    match ViewEdge(v).id {
      case None =>
      case Some(s) => EdgePass(s, ks);
    }
  }

  /** The lists of a treated graph, element by element. */
  lemma GraphItems(ks: seq<string>, graph: Json, j: nat)
    requires j < 2
    ensures var key, how := GRAPH.steps[j].key, if j == 0 then NODE else EDGE;
            ItemsOf(At(Treat(ks, GRAPH, graph), key)) == TreatEach(ks, how, ItemsOf(At(graph, key)))
  {
    StepsOkNode();
    hide StepsOk, At;
    InsideAt(ks, GRAPH.steps, graph, j);
    var key, how := GRAPH.steps[j].key, if j == 0 then NODE else EDGE;
    assert GRAPH.steps[j].how == Each(how);
    hide Treat;
    match At(graph, key) {
      case None => assert TreatEach(ks, how, []) == [];
      case Some(u) => EachItems(ks, how, u);
    }
  }

  lemma EachItems(ks: seq<string>, how: Treatment, u: Json)
    ensures ItemsOf(Some(Treat(ks, Each(how), u))) == TreatEach(ks, how, ItemsOf(Some(u)))
  {
    if !u.List? { assert TreatEach(ks, how, []) == []; }
  }

  lemma RestWhole(j: nat)
    requires 2 <= j < |REST|
    ensures REST[j].how == Whole
  {
  }

  lemma SaidFollows(d: Json, cs: seq<Entry>, key: string, j: nat)
    requires HasComponents(d, cs) && Inert(KeysOf(cs)) && 2 <= j < |REST| && key == REST[j].key
    ensures WordsAt(At(Normalize(d), key)) == ImageWords(IdMapOf(KeysOf(cs)), WordsAt(At(d, key)))
  {
    hide Normalize, At, Treat, WordsOf, Inert, IdMapOf, HasComponents;
    RestWhole(j);
    hide REST;
    RestAt(d, cs, j);
    match At(d, key) {
      case None =>
      case Some(v) => WholeFollows(KeysOf(cs), v);
    }
  }

  lemma SaidImage(d: Json, cs: seq<Entry>)
    requires HasComponents(d, cs) && Inert(KeysOf(cs))
    ensures var m := IdMapOf(KeysOf(cs));
            var d' := Normalize(d);
            && WordsAt(At(d', "history")) == ImageWords(m, WordsAt(At(d, "history")))
            && WordsAt(At(d', "messages")) == ImageWords(m, WordsAt(At(d, "messages")))
            && WordsAt(At(d', "reference")) == ImageWords(m, WordsAt(At(d, "reference")))
  {
    hide Normalize, At, WordsAt, ImageWords, IdMapOf, HasComponents, Inert;
    SaidFollows(d, cs, "history", 2);
    SaidFollows(d, cs, "messages", 3);
    SaidFollows(d, cs, "reference", 4);
  }

  lemma ListsFollow(d: Json, cs: seq<Entry>, key: string, j: nat)
    requires HasComponents(d, cs) && j < 2 && key == GRAPH.steps[j].key
    ensures InGraph(Normalize(d), key) == TreatEach(KeysOf(cs), if j == 0 then NODE else EDGE, InGraph(d, key))
  {
    var ks := KeysOf(cs);
    RestAt(d, cs, 1);
    hide Normalize, At, Treat;
    match At(d, "graph") {
      case None => assert TreatEach(ks, if j == 0 then NODE else EDGE, []) == [];
      case Some(graph) => GraphItems(ks, graph, j);
    }
  }

  lemma PathImage(d: Json, cs: seq<Entry>)
    requires HasComponents(d, cs)
    ensures Texts(ItemsOf(At(Normalize(d), "path"))) == GetEach(IdMapOf(KeysOf(cs)), Texts(ItemsOf(At(d, "path"))))
  {
    var m := IdMapOf(KeysOf(cs));
    RestAt(d, cs, 0);
    hide Normalize, At, IdMapOf, Texts;
    TextsMapped(m, ItemsOf(At(d, "path")));
    assert GetItems(m, []) == [];
  }

  lemma ComponentsImage(ks: seq<string>, cs: seq<Entry>)
    requires ks == KeysOf(cs) && NoCollision(ks) && Inert(ks)
    ensures var a, b := ViewComponents(MigrateComponents(ks, cs)), ViewComponents(cs);
            |a| == |b| && forall i :: 0 <= i < |a| ==> a[i] == ImageComponent(IdMapOf(ks), b[i])
  {
    hide MigrateComponents, MigrateComponent, ViewComponent, ImageComponent, Inert, RenameId, IdMapOf, NoCollision;
    ComponentsInOrder(ks, cs);
    forall i | 0 <= i < |cs|
      ensures ViewComponent(MigrateComponents(ks, cs)[i]) == ImageComponent(IdMapOf(ks), ViewComponent(cs[i]))
    {
      assert ks[i] in ks;
      ComponentFollows(ks, cs[i]);
    }
  }

  lemma NodesImage(d: Json, cs: seq<Entry>)
    requires HasComponents(d, cs) && Inert(KeysOf(cs))
    ensures var a, b := ViewNodes(InGraph(Normalize(d), "nodes")), ViewNodes(InGraph(d, "nodes"));
            |a| == |b| && forall i :: 0 <= i < |a| ==> a[i] == ImageNode(IdMapOf(KeysOf(cs)), b[i])
  {
    var ks := KeysOf(cs);
    ListsFollow(d, cs, "nodes", 0);
    hide Normalize, InGraph, ViewNode, ImageNode, Inert, Treat, IdMapOf;
    var items := InGraph(d, "nodes");
    forall i | 0 <= i < |items|
      ensures ViewNode(Treat(ks, NODE, items[i])) == ImageNode(IdMapOf(ks), ViewNode(items[i]))
    {
      NodeFollows(ks, items[i]);
    }
  }

  lemma EdgesImage(d: Json, cs: seq<Entry>)
    requires HasComponents(d, cs)
    ensures var ks := KeysOf(cs);
            var a, b := ViewEdges(InGraph(Normalize(d), "edges")), ViewEdges(InGraph(d, "edges"));
            && |a| == |b| && (forall i :: 0 <= i < |a| ==> EdgeEnds(a[i]) == EdgeEnds(ImageEdge(ks, b[i])))
            && (AllSolid(ks) ==> forall i :: 0 <= i < |a| ==> a[i] == ImageEdge(ks, b[i]))
  {
    var ks := KeysOf(cs);
    ListsFollow(d, cs, "edges", 1);
    hide Normalize, InGraph, ViewEdge, ImageEdge, EdgeEnds, Treat, IdMapOf, AllSolid;
    var items := InGraph(d, "edges");
    forall i | 0 <= i < |items|
      ensures EdgeEnds(ViewEdge(Treat(ks, EDGE, items[i]))) == EdgeEnds(ImageEdge(ks, ViewEdge(items[i])))
      ensures AllSolid(ks) ==> ViewEdge(Treat(ks, EDGE, items[i])) == ImageEdge(ks, ViewEdge(items[i]))
    {
      EdgeFollows(ks, items[i]);
      if AllSolid(ks) { SolidEdgeFollows(ks, items[i]); }
    }
  }

  /** The view of a description with the components `cs`, part by part. */
  lemma ViewParts(d: Json, cs: seq<Entry>)
    requires HasComponents(d, cs)
    ensures ViewOf(d) ==
            View(ViewComponents(cs), Texts(ItemsOf(At(d, "path"))),
                 ViewNodes(InGraph(d, "nodes")), ViewEdges(InGraph(d, "edges")),
                 [WordsAt(At(d, "history")), WordsAt(At(d, "messages")), WordsAt(At(d, "reference"))])
  {
    hide ViewComponents, ViewNodes, ViewEdges, WordsAt, Texts, ItemsOf, Find, InGraph;
  }

  /** When a view is the image of another. */
  lemma ImageParts(ks: seq<string>, a: View, b: View)
    requires var m := IdMapOf(ks);
             && |a.said| == |b.said| == 3 && a.path == GetEach(m, b.path)
             && |a.nodes| == |b.nodes| && (forall i :: 0 <= i < |a.nodes| ==> a.nodes[i] == ImageNode(m, b.nodes[i]))
             && (forall i :: 0 <= i < 3 ==> a.said[i] == ImageWords(m, b.said[i]))
    requires |a.edges| == |b.edges|
    requires forall i :: 0 <= i < |a.edges| ==> EdgeEnds(a.edges[i]) == EdgeEnds(ImageEdge(ks, b.edges[i]))
    ensures WithoutEdgeIds(a) == WithoutEdgeIds(Image(ks, b)) <==>
            |a.components| == |b.components|
            && forall i :: 0 <= i < |a.components| ==> a.components[i] == ImageComponent(IdMapOf(ks), b.components[i])
    ensures (forall i :: 0 <= i < |a.edges| ==> a.edges[i] == ImageEdge(ks, b.edges[i])) ==>
            (a == Image(ks, b) <==> WithoutEdgeIds(a) == WithoutEdgeIds(Image(ks, b)))
  {
    hide ImageNode, ImageEdge, ImageComponent, ImageWords, GetEach, EdgeEnds, IdMapOf;
    var c := Image(ks, b);
    assert a.nodes == c.nodes && a.said == c.said && a.path == c.path;
    assert EdgeEndsEach(a.edges) == EdgeEndsEach(c.edges);
    if |a.components| == |b.components|
       && forall i :: 0 <= i < |a.components| ==> a.components[i] == ImageComponent(IdMapOf(ks), b.components[i]) {
      assert a.components == c.components;
    }
    if forall i :: 0 <= i < |a.edges| ==> a.edges[i] == ImageEdge(ks, b.edges[i]) { assert a.edges == c.edges; }
  }

  /** The whole migrated description is the image of the old one: every component in its place with
      its links, parent, class name and all its texts, the path, every node and edge of the drawing,
      and what was said. It is so exactly when no two new ids collide; the ids of edges included, if
      the component ids are solid. */
  lemma ViewFollows(d: Json, cs: seq<Entry>)
    requires HasComponents(d, cs) && Inert(KeysOf(cs))
    ensures WithoutEdgeIds(ViewOf(Normalize(d))) == WithoutEdgeIds(Image(KeysOf(cs), ViewOf(d))) <==>
            NoCollision(KeysOf(cs))
    ensures AllSolid(KeysOf(cs)) ==> (ViewOf(Normalize(d)) == Image(KeysOf(cs), ViewOf(d)) <==> NoCollision(KeysOf(cs)))
  {
    hide Normalize, MigrateComponents, NoCollision, ViewComponent, ViewNode, ViewEdge, InGraph, At, WordsAt, Texts,
         ItemsOf, Image, ImageComponent, ImageNode, ImageEdge, ImageWords, IdMapOf, Inert, HasComponents, ViewOf,
         EdgeEnds, WithoutEdgeIds, AllSolid;
    var ks := KeysOf(cs);
    var d', cs' := Normalize(d), MigrateComponents(ks, cs);
    MigratedComponents(d, cs);
    NothingLost(ks, cs);
    ViewParts(d, cs);
    ViewParts(d', cs');
    PathImage(d, cs);
    NodesImage(d, cs);
    EdgesImage(d, cs);
    SaidImage(d, cs);
    ImageParts(ks, ViewOf(d'), ViewOf(d));
    if NoCollision(ks) { ComponentsImage(ks, cs); }
  }

  // ---------- corollaries for one component and one edge

  /** A text without a brace is mapped as an id. */
  lemma LinkPlain(m: IdMap, x: string)
    requires '{' !in x
    ensures RewriteText(m, x) == Get(m, x)
  {
    SubstitutePlain(m, x);
  }

  lemma LinksPlain(m: IdMap, ss: seq<string>)
    requires forall i :: 0 <= i < |ss| ==> '{' !in ss[i]
    ensures RewriteEach(m, ss) == GetEach(m, ss)
  {
    hide RewriteText, Get;
    forall i | 0 <= i < |ss| ensures RewriteText(m, ss[i]) == Get(m, ss[i]) { LinkPlain(m, ss[i]); }
  }

  /** Links without a brace are the old links under the id map: the graph of the components is the
      old graph. */
  lemma GraphImage(d: Json, cs: seq<Entry>, i: nat)
    requires HasComponents(d, cs) && Inert(KeysOf(cs)) && NoCollision(KeysOf(cs)) && i < |cs|
    requires var c := ViewOf(d).components;
             i < |c| && (forall j :: 0 <= j < |c[i].downstream| ==> '{' !in c[i].downstream[j])
             && (forall j :: 0 <= j < |c[i].upstream| ==> '{' !in c[i].upstream[j])
             && (c[i].parent.Some? ==> '{' !in c[i].parent.value)
    ensures var m := IdMapOf(KeysOf(cs));
            var c, c' := ViewOf(d).components, ViewOf(Normalize(d)).components;
            && |c'| == |c| == |cs| && c'[i].id == Get(m, c[i].id)
            && c'[i].downstream == GetEach(m, c[i].downstream) && c'[i].upstream == GetEach(m, c[i].upstream)
            && c'[i].parent == GetSome(m, c[i].parent)
  {
    hide Normalize, MigrateComponents, NoCollision, ViewComponent, InGraph, At, WordsAt, Texts, ItemsOf, ImageWords,
         ImageName, IdMapOf, Inert, HasComponents, ViewOf, RewriteText, Get, RewriteEach;
    var ks := KeysOf(cs);
    var m := IdMapOf(ks);
    MigratedComponents(d, cs);
    ViewParts(d, cs);
    ViewParts(Normalize(d), MigrateComponents(ks, cs));
    ComponentsImage(ks, cs);
    var c := ViewComponents(cs)[i];
    LinksPlain(m, c.downstream);
    LinksPlain(m, c.upstream);
    if c.parent.Some? { LinkPlain(m, c.parent.value); }
  }

  /** The id of an edge, put together from texts and component ids: the same with the ids renamed,
      if legacy prefixes start nowhere else; and for solid ids exactly if no id starts elsewhere. */
  lemma EdgeImage(d: Json, cs: seq<Entry>, i: nat, ps: seq<Part>)
    requires HasComponents(d, cs) && Given(ps, KeysOf(cs))
    requires var e := InGraph(d, "edges"); i < |e| && TextOf(At(e[i], "id")) == Some(Spelled(ps))
    ensures |InGraph(Normalize(d), "edges")| == |InGraph(d, "edges")|
    ensures var id' := TextOf(At(InGraph(Normalize(d), "edges")[i], "id"));
            && (Tidy(ps, KeysOf(cs)) ==> id' == Some(Renamed(ps)))
            && (AllSolid(KeysOf(cs)) ==> (id' == Some(Renamed(ps)) <==> Sparse(ps, KeysOf(cs))))
  {
    var ks := KeysOf(cs);
    ListsFollow(d, cs, "edges", 1);
    hide Normalize, InGraph, At, Treat, IdMapOf, AllSolid, Tidy, Sparse, Given, ReplaceIds, ByLength, Renamed, Pass,
         HasComponents;
    var e := InGraph(d, "edges")[i];
    EdgeFollows(ks, e);
    assert ViewEdge(Treat(ks, EDGE, e)).id == Some(ReplaceIds(Spelled(ps), ByLength(ks)));
    if Tidy(ps, ks) { EdgeIdFollows(ps, ks); }
    if AllSolid(ks) { EdgeIdExact(ps, ks); }
  }
}
