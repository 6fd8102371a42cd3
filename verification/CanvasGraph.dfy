/** The control graph of an agent canvas, and the order in which a run may visit it. */
module CanvasGraph {
  import opened Glob
  import opened MetaValues

  type Id = string

  datatype Kind = Begin | FillUp | IterationItem | LoopItem | Iteration | Loop | ExitLoop | Categorize | Switch | Plain

  /** `exception_handler`: nothing, a jump, or a default answer. */
  datatype Handler = NoHandler | Goto(ids: seq<Id>) | DefaultAnswer

  /** `needs` are the components whose outputs are inputs here; `exits` the targets a
      categorize or switch may choose; `start` the first item of an iteration or loop. */
  datatype Component = Component(kind: Kind, needs: seq<Id>, downstream: seq<Id>, exits: seq<Id>,
                                 parent: Option<Id>, start: Option<Id>, handler: Handler)

  type Graph = map<Id, Component>

  ghost predicate Known(g: Graph, ids: seq<Id>) {
    forall i :: 0 <= i < |ids| ==> ids[i] in g
  }

  /** All ids mentioned exist; items and loop exits have a parent, containers a first item. */
  ghost predicate GraphOk(g: Graph) {
    && "begin" in g && g["begin"].kind == Begin
    && forall x {:trigger InGraph(g, x)} :: InGraph(g, x) ==> ComponentOk(g, g[x])
  }

  predicate InGraph(g: Graph, x: Id) { x in g }

  lemma ComponentFits(g: Graph, x: Id)
    requires GraphOk(g) && x in g
    ensures ComponentOk(g, g[x])
  {
    assert InGraph(g, x);
  }

  ghost predicate ComponentOk(g: Graph, c: Component) {
    && Known(g, c.downstream) && Known(g, c.exits) && (c.handler.Goto? ==> Known(g, c.handler.ids))
    && (c.parent.Some? ==> c.parent.value in g && g[c.parent.value].start.Some?)
    && (c.start.Some? ==> c.start.value in g)
    && (c.kind in {IterationItem, LoopItem, ExitLoop} ==> c.parent.Some?)
    && (c.kind in {Iteration, Loop} ==> c.start.Some?)
  }

  /** Ids, not kinds, decide how a run starts and whether inputs are enforced. */
  predicate FillId(x: Id) {
    Infix("userfillup", Fold(x))
  }

  predicate Exempt(c: Component) {
    c.kind == Begin || c.kind == FillUp
  }

  /** Where control goes without branching: downstream, or back to the container's first item. */
  function Onward(g: Graph, c: Component): (ids: seq<Id>)
    requires c.parent.Some? ==> c.parent.value in g && g[c.parent.value].start.Some?
  {
    if c.downstream == [] && c.parent.Some? then [g[c.parent.value].start.value] else c.downstream
  }

  /** The ids an executed component hands to the path, given whether its item list has ended
      and which exits it chose. */
  function Successors(g: Graph, c: Component, ended: bool, chosen: seq<Id>): (ids: seq<Id>)
    requires ComponentOk(g, c)
  {
    match c.kind
    case IterationItem | LoopItem => if ended then g[c.parent.value].downstream else Onward(g, c)
    case Categorize | Switch => chosen
    case Iteration | Loop => [c.start.value]
    case ExitLoop => if g[c.parent.value].kind == Loop then g[c.parent.value].downstream else Onward(g, c)
    case _ => Onward(g, c)
  }

  // ---------- the same, kind by kind, as a relation

  /** An item whose list has ended, and an exit inside a loop, leave their container. */
  predicate LeavesContainer(g: Graph, c: Component, ended: bool)
    requires ComponentOk(g, c)
  {
    || (c.kind in {IterationItem, LoopItem} && ended)
    || (c.kind == ExitLoop && g[c.parent.value].kind == Loop)
  }

  /** One step on: to a component downstream, or, if there is none, to the first item of the
      container around it. */
  predicate StepsTo(g: Graph, c: Component, b: Id)
    requires ComponentOk(g, c)
  {
    || b in c.downstream
    || (c.downstream == [] && c.parent.Some? && g[c.parent.value].start == Some(b))
  }

  /** Component `c` hands control to `b`, if it reports that its list has ended or not, and which
      exits it chose: a branching component to the exits chosen, a container to its first item,
      one that leaves its container to what is downstream of that, any other one step on. */
  predicate Hands(g: Graph, c: Component, ended: bool, chosen: seq<Id>, b: Id)
    requires ComponentOk(g, c)
  {
    || (c.kind in {Categorize, Switch} && b in chosen)
    || (c.kind in {Iteration, Loop} && c.start == Some(b))
    || (LeavesContainer(g, c, ended) && b in g[c.parent.value].downstream)
    || (c.kind !in {Categorize, Switch, Iteration, Loop} && !LeavesContainer(g, c, ended) && StepsTo(g, c, b))
  }

  /** The successors computed are exactly the components that control is handed to. */
  lemma SuccessorsExactly(g: Graph, c: Component, ended: bool, chosen: seq<Id>, b: Id)
    requires ComponentOk(g, c)
    ensures b in Successors(g, c, ended, chosen) <==> Hands(g, c, ended, chosen, b)
  {
    hide Known;
  }

  /** Control may pass from `a` to `b`: by a jump, or handed on whatever the component reports. */
  ghost predicate Follows(g: Graph, a: Id, b: Id) {
    a in g && ComponentOk(g, g[a]) &&
    ((g[a].handler.Goto? && b in g[a].handler.ids)
     || Hands(g, g[a], true, g[a].exits, b) || Hands(g, g[a], false, g[a].exits, b))
  }

  lemma SuccessorsFollow(g: Graph, a: Id, ended: bool, chosen: seq<Id>, b: Id)
    requires a in g && ComponentOk(g, g[a]) && b in Successors(g, g[a], ended, chosen)
    requires forall i :: 0 <= i < |chosen| ==> chosen[i] in g[a].exits
    ensures Follows(g, a, b)
  {
    hide Known;
    SuccessorsExactly(g, g[a], ended, chosen, b);
  }

  lemma OnwardKnown(g: Graph, c: Component)
    requires ComponentOk(g, c) && (c.parent.Some? ==> ComponentOk(g, g[c.parent.value]))
    ensures Known(g, Onward(g, c))
  {
  }

  lemma SuccessorsKnown(g: Graph, c: Component, ended: bool)
    requires ComponentOk(g, c) && (c.parent.Some? ==> ComponentOk(g, g[c.parent.value]))
    ensures Known(g, Successors(g, c, ended, []))
  {
    OnwardKnown(g, c);
    hide Onward;
  }

  lemma AmongKnown(g: Graph, ids: seq<Id>, b: Id)
    requires Known(g, ids) && b in ids
    ensures b in g
  {
  }

  lemma FollowsKnown(g: Graph, a: Id, b: Id)
    requires GraphOk(g) && Follows(g, a, b)
    ensures b in g
  {
    var c := g[a];
    if c.parent.Some? { ComponentFits(g, c.parent.value); }
    hide GraphOk, Known;
    if c.handler.Goto? && b in c.handler.ids {
      AmongKnown(g, c.handler.ids, b);
    } else if b in c.exits {
      AmongKnown(g, c.exits, b);
    } else if b in c.downstream {
      AmongKnown(g, c.downstream, b);
    } else if c.parent.Some? && b in g[c.parent.value].downstream {
      AmongKnown(g, g[c.parent.value].downstream, b);
    }
  }

  // ---------- reachability

  /** `w` walks the graph from `a` to `b`. */
  ghost predicate Walk(g: Graph, w: seq<Id>, a: Id, b: Id) {
    w != [] && w[0] == a && w[|w| - 1] == b && forall i :: 0 <= i < |w| - 1 ==> Follows(g, w[i], w[i + 1])
  }

  ghost predicate Reaches(g: Graph, a: Id, b: Id) {
    exists w :: Walk(g, w, a, b)
  }

  lemma ReachesSelf(g: Graph, a: Id)
    ensures Reaches(g, a, a)
  {
    assert Walk(g, [a], a, a);
  }

  lemma ReachesStep(g: Graph, a: Id, b: Id, c: Id)
    requires Reaches(g, a, b) && Follows(g, b, c)
    ensures Reaches(g, a, c)
  {
    hide Follows;
    var w :| Walk(g, w, a, b);
    assert Walk(g, w + [c], a, c);
  }

  // ---------- what a run leaves on its path

  /** Entry `j` was put on the path by an executed entry before it. */
  ghost predicate Justified(g: Graph, path: seq<Id>, first: nat, j: nat, done: nat) {
    exists i: nat :: first <= i < j && i < done && i < |path| && j < |path| && Follows(g, path[i], path[j])
  }

  /** Entry `i` may run where it stands: everything it reads from comes earlier. */
  ghost predicate Fed(g: Graph, path: seq<Id>, i: nat)
    requires i < |path|
  {
    && path[i] in g
    && (g[path[i]].kind in {Begin, FillUp} || FillId(path[0])
        || forall k :: 0 <= k < |g[path[i]].needs| ==> g[path[i]].needs[k] in path[..i])
  }

  /** The path of a run that entered at position `first` and has executed everything up to
      position `done`. */
  ghost predicate Trail(g: Graph, path: seq<Id>, first: nat, done: nat) {
    && first <= done <= |path|
    && (forall j :: first <= j < |path| ==> path[j] in g)
    && (forall j: nat :: first < j < |path| ==> Justified(g, path, first, j, done))
    && (forall i: nat :: first <= i < done ==> Fed(g, path, i))
  }

  /** Everything a run puts on the path is reachable from where it entered. */
  lemma {:induction false} TrailReaches(g: Graph, path: seq<Id>, first: nat, done: nat, j: nat)
    requires Trail(g, path, first, done) && first <= j < |path|
    ensures Reaches(g, path[first], path[j])
    decreases j
  {
    if j == first {
      ReachesSelf(g, path[first]);
    } else {
      assert Justified(g, path, first, j, done);
      var i: nat :| first <= i < j && i < done && Follows(g, path[i], path[j]);
      TrailReaches(g, path, first, done, i);
      ReachesStep(g, path[first], path[i], path[j]);
    }
  }
}
