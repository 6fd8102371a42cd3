/** Renaming the ids of a canvas renames its runs and changes nothing else: what the migration of a
    description means for what runs on it. */
module CanvasRename {
  import opened Glob
  import opened MetaValues
  import opened CanvasGraph
  import opened Canvas
  import CanvasRuns
  import DslIds
  import DslMigration

  // ---------- renamed graphs

  function Each(h: Id -> Id, s: seq<Id>): (r: seq<Id>)
    ensures |r| == |s| && forall i :: 0 <= i < |r| ==> r[i] == h(s[i])
  {
    seq(|s|, i requires 0 <= i < |s| => h(s[i]))
  }

  function MapSome(h: Id -> Id, x: Option<Id>): Option<Id> {
    match x case None => None case Some(a) => Some(h(a))
  }

  function MapHandler(h: Id -> Id, x: Handler): Handler {
    match x case Goto(ids) => Goto(Each(h, ids)) case _ => x
  }

  function MapComponent(h: Id -> Id, c: Component): Component {
    Component(c.kind, Each(h, c.needs), Each(h, c.downstream), Each(h, c.exits),
              MapSome(h, c.parent), MapSome(h, c.start), MapHandler(h, c.handler))
  }

  /** The components, and whatever they read from. */
  ghost predicate Mentioned(g: Graph, x: Id) {
    x in g || exists y :: y in g && x in g[y].needs
  }

  /** `g'` is `g` with its ids renamed. */
  ghost predicate Maps(g: Graph, g': Graph, h: Id -> Id) {
    && (forall x {:trigger InGraph(g, x)} :: InGraph(g, x) ==> h(x) in g' && g'[h(x)] == MapComponent(h, g[x]))
    && (forall y {:trigger InGraph(g', y)} :: InGraph(g', y) ==> exists x :: x in g && h(x) == y)
  }

  /** No two ids mentioned in it become one. */
  ghost predicate KeepsApart(g: Graph, h: Id -> Id) {
    forall x, y {:trigger h(x), h(y)} :: Mentioned(g, x) && Mentioned(g, y) && h(x) == h(y) ==> x == y
  }

  ghost predicate Renames(g: Graph, g': Graph, h: Id -> Id) {
    Maps(g, g', h) && KeepsApart(g, h)
  }

  /** Runs start alike: "begin" keeps its name, and fill-ups stay recognisable. */
  ghost predicate KeepsEntries(h: Id -> Id) {
    h("begin") == "begin" && forall x {:trigger FillId(x)} {:trigger h(x)} :: FillId(h(x)) <==> FillId(x)
  }

  /** The renamed components do what the old ones do. */
  ghost predicate SameOracle(g: Graph, h: Id -> Id, o: Oracle, o': Oracle) {
    && (forall r: nat, i: nat {:trigger o.fails(r, i)} {:trigger o'.fails(r, i)} :: o'.fails(r, i) == o.fails(r, i))
    && (forall r: nat, i: nat {:trigger o.ends(r, i)} {:trigger o'.ends(r, i)} :: o'.ends(r, i) == o.ends(r, i))
    && (forall r: nat, i: nat, x: Id {:trigger o.chooses(r, i, x)} :: x in g ==>
          o'.chooses(r, i, h(x)) == Each(h, o.chooses(r, i, x)))
  }

  lemma ComponentAt(g: Graph, g': Graph, h: Id -> Id, x: Id)
    requires Renames(g, g', h) && x in g
    ensures h(x) in g' && g'[h(x)] == MapComponent(h, g[x])
  {
    assert InGraph(g, x);
  }

  lemma KnownRenamed(g: Graph, g': Graph, h: Id -> Id, ids: seq<Id>)
    requires Renames(g, g', h) && Known(g, ids)
    ensures Known(g', Each(h, ids))
  {
    forall i | 0 <= i < |ids| ensures h(ids[i]) in g' { ComponentAt(g, g', h, ids[i]); }
  }

  lemma ComponentOkRenamed(g: Graph, g': Graph, h: Id -> Id, c: Component)
    requires Renames(g, g', h) && ComponentOk(g, c)
    ensures ComponentOk(g', MapComponent(h, c))
  {
    hide Renames;
    KnownRenamed(g, g', h, c.downstream);
    KnownRenamed(g, g', h, c.exits);
    if c.handler.Goto? { KnownRenamed(g, g', h, c.handler.ids); }
    if c.parent.Some? { ComponentAt(g, g', h, c.parent.value); }
    if c.start.Some? { ComponentAt(g, g', h, c.start.value); }
  }

  lemma GraphOkRenamed(g: Graph, g': Graph, h: Id -> Id)
    requires GraphOk(g) && Renames(g, g', h) && KeepsEntries(h)
    ensures GraphOk(g')
  {
    ComponentAt(g, g', h, "begin");
    forall y | InGraph(g', y) ensures ComponentOk(g', g'[y]) {
      var x :| x in g && h(x) == y;
      ComponentFits(g, x);
      ComponentAt(g, g', h, x);
      ComponentOkRenamed(g, g', h, g[x]);
    }
  }

  lemma OracleOkRenamed(g: Graph, g': Graph, h: Id -> Id, o: Oracle, o': Oracle)
    requires Renames(g, g', h) && OracleOk(g, o) && SameOracle(g, h, o, o')
    ensures OracleOk(g', o')
  {
    forall r: nat, i: nat, y: Id, k | y in g' && 0 <= k < |o'.chooses(r, i, y)|
      ensures o'.chooses(r, i, y)[k] in g'[y].exits
    {
      assert InGraph(g', y);
      var x :| x in g && h(x) == y;
      ComponentAt(g, g', h, x);
      var chosen := o.chooses(r, i, x);
      assert o'.chooses(r, i, y) == Each(h, chosen);
      var j :| 0 <= j < |g[x].exits| && g[x].exits[j] == chosen[k];
      assert g'[y].exits[j] == h(chosen[k]);
    }
  }

  // ---------- one batch

  lemma AmongRenamed(g: Graph, g': Graph, h: Id -> Id, x: Id, s: seq<Id>)
    requires Renames(g, g', h) && Mentioned(g, x) && Known(g, s)
    ensures h(x) in Each(h, s) <==> x in s
  {
    var r := Each(h, s);
    if h(x) in r {
      var i :| 0 <= i < |r| && r[i] == h(x);
      assert Mentioned(g, s[i]) && h(s[i]) == h(x);
    }
    if x in s {
      var i :| 0 <= i < |s| && s[i] == x;
      assert r[i] == h(x);
    }
  }

  lemma ReadyRenamed(g: Graph, g': Graph, h: Id -> Id, before: seq<Id>, x: Id)
    requires Renames(g, g', h) && KeepsEntries(h) && Known(g, before) && x in g
    ensures h(x) in g' && (Ready(g', Each(h, before), h(x)) <==> Ready(g, before, x))
  {
    hide FillId, Renames, Mentioned;
    ComponentAt(g, g', h, x);
    var needs := g[x].needs;
    forall k | 0 <= k < |needs| ensures h(needs[k]) in Each(h, before) <==> needs[k] in before {
      NeedMentioned(g, x, k);
      AmongRenamed(g, g', h, needs[k], before);
    }
    assert g'[h(x)].needs == Each(h, needs) && g'[h(x)].kind == g[x].kind;
    assert FillId(if Each(h, before) == [] then h(x) else Each(h, before)[0]) <==>
           FillId(if before == [] then x else before[0]);
  }

  lemma NeedMentioned(g: Graph, x: Id, k: nat)
    requires x in g && k < |g[x].needs|
    ensures Mentioned(g, g[x].needs[k])
  {
    assert g[x].needs[k] in g[x].needs;
  }

  lemma {:induction false} SiftRenamed(g: Graph, g': Graph, h: Id -> Id, before: seq<Id>, batch: seq<Id>)
    requires Renames(g, g', h) && KeepsEntries(h) && Known(g, before) && Known(g, batch)
    ensures Known(g', Each(h, batch)) && Sift(g', Each(h, before), Each(h, batch)) == Each(h, Sift(g, before, batch))
    decreases |batch|
  {
    hide Renames, KeepsEntries, Ready, Sift;
    KnownRenamed(g, g', h, batch);
    if batch == [] {
      SiftNone(g, before);
      SiftNone(g', Each(h, before));
      assert Each(h, batch) == [];
    } else {
      var x := batch[0];
      var next := if Ready(g, before, x) then before + [x] else before;
      ReadyRenamed(g, g', h, before, x);
      SiftStep(g, before, batch);
      SiftStep(g', Each(h, before), Each(h, batch));
      assert Each(h, before + [x]) == Each(h, before) + [h(x)];
      assert Each(h, batch)[1..] == Each(h, batch[1..]);
      SiftRenamed(g, g', h, next, batch[1..]);
    }
  }

  // ---------- settling

  lemma AppendRenamed(g: Graph, g': Graph, h: Id -> Id, path: seq<Id>, x: Id)
    requires Renames(g, g', h) && Known(g, path) && x in g
    ensures Append(Each(h, path), h(x)) == Each(h, Append(path, x)) && Known(g, Append(path, x))
  {
    hide Renames;
    if path != [] { Distinguished(g, g', h, path[|path| - 1], x); }
    assert Each(h, path + [x]) == Each(h, path) + [h(x)];
  }

  lemma {:induction false} ExtendRenamed(g: Graph, g': Graph, h: Id -> Id, path: seq<Id>, ids: seq<Id>)
    requires Renames(g, g', h) && Known(g, path) && Known(g, ids)
    ensures Extend(Each(h, path), Each(h, ids)) == Each(h, Extend(path, ids)) && Known(g, Extend(path, ids))
    decreases |ids|
  {
    hide Renames, Extend, Append;
    ExtendStep(path, ids);
    ExtendStep(Each(h, path), Each(h, ids));
    if ids == [] {
    } else {
      var init, last := ids[..|ids| - 1], ids[|ids| - 1];
      ExtendRenamed(g, g', h, path, init);
      assert Each(h, ids)[..|ids| - 1] == Each(h, init);
      AppendRenamed(g, g', h, Extend(path, init), last);
    }
  }

  lemma ExtendStep(path: seq<Id>, ids: seq<Id>)
    ensures Extend(path, ids) ==
            if ids == [] then path else Append(Extend(path, ids[..|ids| - 1]), ids[|ids| - 1])
  {
    hide Append;
  }

  lemma Distinguished(g: Graph, g': Graph, h: Id -> Id, x: Id, y: Id)
    requires Renames(g, g', h) && x in g && y in g
    ensures h(x) == h(y) <==> x == y
  {
    assert Mentioned(g, x) && Mentioned(g, y);
  }

  lemma SuccessorsRenamed(g: Graph, g': Graph, h: Id -> Id, x: Id, ended: bool, chosen: seq<Id>)
    requires Renames(g, g', h) && x in g && ComponentOk(g, g[x])
    ensures h(x) in g' && ComponentOk(g', g'[h(x)])
    ensures Successors(g', g'[h(x)], ended, Each(h, chosen)) == Each(h, Successors(g, g[x], ended, chosen))
  {
    hide Renames, ComponentOk;
    ComponentAt(g, g', h, x);
    ComponentOkRenamed(g, g', h, g[x]);
    var c := g[x];
    ComponentParts(g, c);
    OnwardRenamed(g, g', h, c);
    if c.parent.Some? { ComponentAt(g, g', h, c.parent.value); }
    hide Onward;
    if c.kind in {Iteration, Loop} { assert Each(h, [c.start.value]) == [h(c.start.value)]; }
  }

  lemma ComponentParts(g: Graph, c: Component)
    requires ComponentOk(g, c)
    ensures c.parent.Some? ==> c.parent.value in g && g[c.parent.value].start.Some?
    ensures c.kind in {IterationItem, LoopItem, ExitLoop} ==> c.parent.Some?
    ensures c.kind in {Iteration, Loop} ==> c.start.Some?
  {
  }

  lemma OnwardRenamed(g: Graph, g': Graph, h: Id -> Id, c: Component)
    requires Renames(g, g', h) && (c.parent.Some? ==> c.parent.value in g && g[c.parent.value].start.Some?)
    ensures c.parent.Some? ==> h(c.parent.value) in g' && g'[h(c.parent.value)].start.Some?
    ensures Onward(g', MapComponent(h, c)) == Each(h, Onward(g, c))
  {
    hide Renames;
    if c.parent.Some? {
      ComponentAt(g, g', h, c.parent.value);
      var s := g[c.parent.value].start.value;
      assert Each(h, [s]) == [h(s)];
    }
  }

  lemma HandedKnown(g: Graph, x: Id, ended: bool, chosen: seq<Id>)
    requires GraphOk(g) && x in g && ComponentOk(g, g[x]) && forall k :: 0 <= k < |chosen| ==> chosen[k] in g[x].exits
    ensures Known(g, Successors(g, g[x], ended, chosen)) && (g[x].handler.Goto? ==> Known(g, g[x].handler.ids))
  {
    var c := g[x];
    if c.parent.Some? { ComponentFits(g, c.parent.value); }
    SuccessorsKnown(g, c, ended);
    if c.kind in {Categorize, Switch} {
      forall k | 0 <= k < |chosen| ensures chosen[k] in g {
        var j :| 0 <= j < |c.exits| && c.exits[j] == chosen[k];
      }
    }
  }

  lemma SettleOneRenamed(g: Graph, g': Graph, h: Id -> Id, path: seq<Id>, x: Id, failed: bool, ended: bool,
                         chosen: seq<Id>)
    requires GraphOk(g) && Renames(g, g', h) && Known(g, path) && x in g && ComponentOk(g, g[x])
    requires forall k :: 0 <= k < |chosen| ==> chosen[k] in g[x].exits
    ensures Known(g, SettleOne(g, path, x, failed, ended, chosen)) && h(x) in g' && ComponentOk(g', g'[h(x)])
    ensures SettleOne(g', Each(h, path), h(x), failed, ended, Each(h, chosen)) ==
            Each(h, SettleOne(g, path, x, failed, ended, chosen))
  {
    hide GraphOk, Renames, ComponentOk, Successors, Extend;
    ComponentAt(g, g', h, x);
    SuccessorsRenamed(g, g', h, x, ended, chosen);
    HandedKnown(g, x, ended, chosen);
    ExtendRenamed(g, g', h, path, Successors(g, g[x], ended, chosen));
    if g[x].handler.Goto? {
      var ids := g[x].handler.ids;
      assert Each(h, path + ids) == Each(h, path) + Each(h, ids);
      assert ids != [] <==> Each(h, ids) != [];
    }
  }

  lemma {:induction false} SettledRenamed(g: Graph, g': Graph, h: Id -> Id, path: seq<Id>, lo: nat, hi: nat, o: Oracle,
                                          o': Oracle, round: nat)
    requires GraphOk(g) && GraphOk(g') && Renames(g, g', h) && OracleOk(g, o) && SameOracle(g, h, o, o')
    requires Known(g, path) && lo <= hi <= |path|
    ensures forall i :: lo <= i < hi ==> Each(h, path)[i] in g'
    ensures Known(g, Settled(g, path, lo, hi, o, round))
    ensures Settled(g', Each(h, path), lo, hi, o', round) == Each(h, Settled(g, path, lo, hi, o, round))
    decreases hi
  {
    hide GraphOk, Renames, OracleOk, SameOracle, SettleOne, Settled;
    KnownRenamed(g, g', h, path);
    if lo == hi {
      SettledNone(g, path, lo, o, round);
      SettledNone(g', Each(h, path), lo, o', round);
    } else {
      var x, before := path[hi - 1], Settled(g, path, lo, hi - 1, o, round);
      SettledRenamed(g, g', h, path, lo, hi - 1, o, o', round);
      SettledStep(g, path, lo, hi, o, round);
      SettledStep(g', Each(h, path), lo, hi, o', round);
      Answers(g, h, o, o', round, hi - 1, x);
      SettleOneRenamed(g, g', h, before, x, o.fails(round, hi - 1), o.ends(round, hi - 1), o.chooses(round, hi - 1, x));
    }
  }

  lemma Answers(g: Graph, h: Id -> Id, o: Oracle, o': Oracle, r: nat, i: nat, x: Id)
    requires OracleOk(g, o) && SameOracle(g, h, o, o') && x in g
    ensures o'.fails(r, i) == o.fails(r, i) && o'.ends(r, i) == o.ends(r, i)
    ensures o'.chooses(r, i, h(x)) == Each(h, o.chooses(r, i, x))
    ensures forall k :: 0 <= k < |o.chooses(r, i, x)| ==> o.chooses(r, i, x)[k] in g[x].exits
  {
  }

  lemma {:induction false} BrokenRenamed(g: Graph, g': Graph, h: Id -> Id, path: seq<Id>, lo: nat, hi: nat, o: Oracle,
                                         o': Oracle, round: nat)
    requires Renames(g, g', h) && OracleOk(g, o) && SameOracle(g, h, o, o') && Known(g, path) && lo <= hi <= |path|
    ensures forall i :: lo <= i < hi ==> Each(h, path)[i] in g'
    ensures Broken(g', Each(h, path), lo, hi, o', round) <==> Broken(g, path, lo, hi, o, round)
    decreases hi
  {
    hide Renames, OracleOk, SameOracle, Broken;
    KnownRenamed(g, g', h, path);
    if lo == hi {
      BrokenNone(g, path, lo, o, round);
      BrokenNone(g', Each(h, path), lo, o', round);
    } else {
      var x := path[hi - 1];
      BrokenRenamed(g, g', h, path, lo, hi - 1, o, o', round);
      BrokenStep(g, path, lo, hi - 1, o, round);
      BrokenStep(g', Each(h, path), lo, hi - 1, o', round);
      Answers(g, h, o, o', round, hi - 1, x);
      ComponentAt(g, g', h, x);
      assert g[x].handler.Goto? ==> (g[x].handler.ids == [] <==> Each(h, g[x].handler.ids) == []);
    }
  }

  // ---------- suspension

  lemma FillRenamed(g: Graph, g': Graph, h: Id -> Id, x: Id)
    requires Renames(g, g', h) && x in g
    ensures IsFill(g', h(x)) <==> IsFill(g, x)
  {
    ComponentAt(g, g', h, x);
  }

  lemma AheadRenamed(g: Graph, g': Graph, h: Id -> Id, path: seq<Id>, idx: nat)
    requires Renames(g, g', h) && Known(g, path)
    ensures FillAhead(g', Each(h, path), idx) <==> FillAhead(g, path, idx)
  {
    hide Renames, IsFill;
    forall k | 0 <= k < |path| ensures IsFill(g', h(path[k])) <==> IsFill(g, path[k]) {
      FillRenamed(g, g', h, path[k]);
    }
    if FillAhead(g, path, idx) {
      var k :| idx <= k < |path| && IsFill(g, path[k]);
      assert IsFill(g', Each(h, path)[k]);
    }
  }

  lemma {:induction false} PickRenamed(g: Graph, g': Graph, h: Id -> Id, s: seq<Id>, fill: bool)
    requires Renames(g, g', h) && Known(g, s)
    ensures Pick(g', Each(h, s), fill) == Each(h, Pick(g, s, fill))
    decreases |s|
  {
    hide Renames, IsFill, Pick;
    CanvasRuns.PickStep(g, s, fill);
    CanvasRuns.PickStep(g', Each(h, s), fill);
    if s == [] {
    } else {
      var init, last := s[..|s| - 1], s[|s| - 1];
      PickRenamed(g, g', h, init, fill);
      FillRenamed(g, g', h, last);
      assert Each(h, s)[..|s| - 1] == Each(h, init);
      var p := Pick(g, init, fill);
      assert Each(h, p + [last]) == Each(h, p) + [h(last)] && p + [] == p;
    }
  }

  lemma SuspensionRenamed(g: Graph, g': Graph, h: Id -> Id, tail: seq<Id>)
    requires Renames(g, g', h) && Known(g, tail)
    ensures Suspension(g', Each(h, tail)) == Each(h, Suspension(g, tail))
  {
    hide Renames, Pick;
    PickRenamed(g, g', h, tail, true);
    PickRenamed(g, g', h, tail, false);
  }

  // ---------- whole runs

  function MapOutcome(h: Id -> Id, out: Outcome): Outcome {
    Outcome(out.status, Each(h, out.trail), out.done, out.ran)
  }

  lemma {:induction false} RunFromRenamed(g: Graph, g': Graph, h: Id -> Id, path: seq<Id>, first: nat, idx: nat,
                                          o: Oracle, o': Oracle, round: nat, rounds: nat)
    requires GraphOk(g) && OracleOk(g, o) && Entry(path, first, idx) && Trail(g, path, first, idx) && round <= rounds
    requires GraphOk(g') && OracleOk(g', o') && Entry(Each(h, path), first, idx) && Trail(g', Each(h, path), first, idx)
    requires Renames(g, g', h) && KeepsEntries(h) && SameOracle(g, h, o, o') && Known(g, path)
    ensures RunFrom(g', Each(h, path), first, idx, o', round, rounds) ==
            MapOutcome(h, RunFrom(g, path, first, idx, o, round, rounds))
    decreases rounds - round
  {
    hide GraphOk, OracleOk, Entry, Trail, Sift, Settled, Broken, FillAhead, RunFrom, Renames, KeepsEntries, SameOracle;
    var path' := Each(h, path);
    if idx >= |path| || round == rounds {
      CanvasRuns.AtEnd(g, path, first, idx, o, round, rounds);
      CanvasRuns.AtEnd(g', path', first, idx, o', round, rounds);
    } else {
      CanvasRuns.EntryOrder(path, first, idx);
      RunStep(g, path, first, idx, o, round, rounds);
      RunStep(g', path', first, idx, o', round, rounds);
      var before, batch := path[..idx], path[idx..];
      assert path'[..idx] == Each(h, before) && path'[idx..] == Each(h, batch);
      SiftRenamed(g, g', h, before, batch);
      var sifted := Sift(g, before, batch);
      SiftKnown(g, before, batch);
      BrokenRenamed(g, g', h, sifted, idx, |sifted|, o, o', round);
      SettledRenamed(g, g', h, sifted, idx, |sifted|, o, o', round);
      var after := Settled(g, sifted, idx, |sifted|, o, round);
      AheadRenamed(g, g', h, after, |sifted|);
      RunFromRenamed(g, g', h, after, first, |sifted|, o, o', round + 1, rounds);
    }
  }

  lemma SiftKnown(g: Graph, before: seq<Id>, batch: seq<Id>)
    requires Known(g, before) && Known(g, batch)
    ensures Known(g, Sift(g, before, batch))
  {
    hide Sift;
    SiftBounds(g, before, batch);
    var path := Sift(g, before, batch);
    forall i | 0 <= i < |path| ensures path[i] in g { if i < |before| { assert path[i] == before[i]; } }
  }

  lemma EnteredRenamed(h: Id -> Id, path: seq<Id>)
    requires KeepsEntries(h)
    ensures Entered(Each(h, path)) == Each(h, Entered(path))
  {
    hide FillId;
    if path != [] {
      var last := path[|path| - 1];
      assert FillId(h(last)) <==> FillId(last);
    }
    assert Each(h, path + ["begin"]) == Each(h, path) + [h("begin")];
  }

  /** A run on the renamed graph, over the renamed path, with components that do what they did before,
      has the same status and the renamed trail, after the same batches; and what a suspension stores
      is renamed. */
  lemma RunRenamed(g: Graph, g': Graph, h: Id -> Id, path: seq<Id>, o: Oracle, o': Oracle, rounds: nat)
    requires GraphOk(g) && OracleOk(g, o) && Known(g, path)
    requires Renames(g, g', h) && KeepsEntries(h) && SameOracle(g, h, o, o')
    ensures GraphOk(g') && OracleOk(g', o') && Known(g', Each(h, path))
    ensures RunOf(g', Each(h, path), o', rounds) == MapOutcome(h, RunOf(g, path, o, rounds))
  {
    hide GraphOk, OracleOk, Entry, Trail, RunFrom, RunOf, Renames, KeepsEntries, SameOracle, FillId, Entered;
    GraphOkRenamed(g, g', h);
    OracleOkRenamed(g, g', h, o, o');
    KnownRenamed(g, g', h, path);
    EnteredRenamed(h, path);
    EnteredKnown(g, path);
    CanvasRuns.RunEntered(g, path, o, rounds);
    CanvasRuns.RunEntered(g', Each(h, path), o', rounds);
    var e := Entered(path);
    RunFromRenamed(g, g', h, e, |e| - 1, |e| - 1, o, o', 0, rounds);
  }

  lemma EnteredKnown(g: Graph, path: seq<Id>)
    requires GraphOk(g) && Known(g, path)
    ensures Known(g, Entered(path))
  {
    hide FillId;
  }

  // ---------- the migration of ids is such a renaming

  const FILL := "userfillup"

  /** Every "u" in it is followed by something other than "s". */
  ghost predicate Harmless(pre: string) {
    forall i :: 0 <= i < |pre| && FoldChar(pre[i]) == 'u' ==> i + 1 < |pre| && FoldChar(pre[i + 1]) != 's'
  }

  /** In front of `r`, a text without the start of the searched name makes no difference. */
  lemma FillBehind(pre: string, r: string)
    requires Harmless(pre)
    ensures FillId(pre + r) <==> FillId(r)
  {
    var s := Fold(pre + r);
    assert s[|pre|..] == Fold(r);
    assert FILL[0] == 'u' && FILL[1] == 's' && |FILL| == 10;
    forall i | 0 <= i < |pre| ensures !OccursAt(FILL, s, i) {
      if i <= |s| - 10 { assert s[i..i + 10][0] == s[i] && s[i..i + 10][1] == s[i + 1]; }
    }
    forall i | 0 <= i <= |r| ensures OccursAt(FILL, s, |pre| + i) <==> OccursAt(FILL, Fold(r), i) {
      if i <= |r| - 10 { assert s[|pre| + i..|pre| + i + 10] == Fold(r)[i..i + 10]; }
    }
    if Infix(FILL, Fold(r)) {
      var i :| 0 <= i <= |Fold(r)| && OccursAt(FILL, Fold(r), i);
      assert OccursAt(FILL, s, |pre| + i);
    }
    if Infix(FILL, s) {
      var i :| 0 <= i <= |s| && OccursAt(FILL, s, i);
      assert OccursAt(FILL, Fold(r), i - |pre|);
    }
  }

  lemma LegacyHarmless(p: DslIds.Prefix)
    requires DslIds.IsPrefix(p)
    ensures Harmless(p.legacy)
  {
    NoU(p);
  }

  lemma NoU(p: DslIds.Prefix)
    requires DslIds.IsPrefix(p)
    ensures forall i :: 0 <= i < |p.legacy| ==> p.legacy[i] != 'u' && p.legacy[i] != 'U'
  {
    hide FoldChar;
  }

  lemma CurrentHarmless(p: DslIds.Prefix)
    requires DslIds.IsPrefix(p)
    ensures Harmless(p.current)
  {
    UThenN(p);
  }

  lemma UThenN(p: DslIds.Prefix)
    requires DslIds.IsPrefix(p)
    ensures forall i :: 0 <= i < |p.current| ==> p.current[i] != 'U'
    ensures forall i :: 0 <= i < |p.current| && p.current[i] == 'u' ==> i + 1 < |p.current| && p.current[i + 1] == 'n'
  {
    hide FoldChar;
  }

  lemma RenameKeepsEntries()
    ensures KeepsEntries(DslIds.RenameId)
  {
    assert !DslIds.Marked("begin");
    forall x ensures FillId(DslIds.RenameId(x)) <==> FillId(x) { RenameKeepsFill(x); }
  }

  lemma RenameKeepsFill(x: Id)
    ensures FillId(DslIds.RenameId(x)) <==> FillId(x)
  {
    hide FillId, DslIds.Marked, DslIds.MarkOf, DslIds.IsPrefix;
    if DslIds.Marked(x) {
      DslIds.MarkParts(x);
      var p := DslIds.MarkOf(x);
      var r := x[|p.legacy|..];
      LegacyHarmless(p);
      CurrentHarmless(p);
      FillBehind(p.legacy, r);
      FillBehind(p.current, r);
    }
  }

  lemma NoCollisionApart(g: Graph, ks: seq<Id>)
    requires DslMigration.NoCollision(ks) && forall x :: Mentioned(g, x) ==> x in ks
    ensures KeepsApart(g, DslIds.RenameId)
  {
    hide Mentioned, DslIds.RenameId;
    forall x, y | Mentioned(g, x) && Mentioned(g, y) && x != y ensures DslIds.RenameId(x) != DslIds.RenameId(y) {
      var i :| 0 <= i < |ks| && ks[i] == x;
      var j :| 0 <= j < |ks| && ks[j] == y;
      assert i < j || j < i;
    }
  }

  /** The migrated canvas runs as the old one did: if no two of its ids collide, every run has the
      same status and batches, the trail under the new ids, and is stored alike when it is suspended. */
  lemma MigratedRuns(g: Graph, g': Graph, ks: seq<Id>, path: seq<Id>, o: Oracle, o': Oracle, rounds: nat)
    requires GraphOk(g) && OracleOk(g, o) && Known(g, path)
    requires Maps(g, g', DslIds.RenameId) && SameOracle(g, DslIds.RenameId, o, o')
    requires DslMigration.NoCollision(ks) && forall x :: Mentioned(g, x) ==> x in ks
    ensures GraphOk(g') && OracleOk(g', o') && Known(g', Each(DslIds.RenameId, path))
    ensures RunOf(g', Each(DslIds.RenameId, path), o', rounds) == MapOutcome(DslIds.RenameId, RunOf(g, path, o, rounds))
    ensures forall tail :: Known(g, tail) ==>
              Suspension(g', Each(DslIds.RenameId, tail)) == Each(DslIds.RenameId, Suspension(g, tail))
  {
    hide Maps, Suspension, Known, GraphOk, OracleOk, SameOracle, RunOf, KeepsApart;
    NoCollisionApart(g, ks);
    RenameKeepsEntries();
    RunRenamed(g, g', DslIds.RenameId, path, o, o', rounds);
    forall tail | Known(g, tail)
      ensures Suspension(g', Each(DslIds.RenameId, tail)) == Each(DslIds.RenameId, Suspension(g, tail))
    {
      SuspensionRenamed(g, g', DslIds.RenameId, tail);
    }
  }
}
