/** `Canvas.run`: batches over a growing path. */
module Canvas {
  import opened CanvasGraph

  /** What components do when invoked, told apart by the round and the position: fail, end
      their item list, choose exits. */
  datatype Oracle = Oracle(fails: (nat, nat) -> bool, ends: (nat, nat) -> bool, chooses: (nat, nat, Id) -> seq<Id>)

  ghost predicate OracleOk(g: Graph, o: Oracle) {
    forall r: nat, i: nat, x: Id {:trigger o.chooses(r, i, x)} :: x in g ==>
      forall k :: 0 <= k < |o.chooses(r, i, x)| ==> o.chooses(r, i, x)[k] in g[x].exits
  }

  // ---------- one batch: entries whose inputs are missing are dropped

  /** May `x` run right after the entries `before`? */
  predicate Ready(g: Graph, before: seq<Id>, x: Id)
    requires x in g
  {
    || Exempt(g[x]) || FillId(if before == [] then x else before[0])
    || forall k :: 0 <= k < |g[x].needs| ==> g[x].needs[k] in before
  }

  /** The batch after dropping: an entry stays if it is ready after those that stayed. */
  function Sift(g: Graph, before: seq<Id>, batch: seq<Id>): (path: seq<Id>)
    requires forall k :: 0 <= k < |batch| ==> batch[k] in g
    decreases |batch|
  {
    if batch == [] then before
    else Sift(g, if Ready(g, before, batch[0]) then before + [batch[0]] else before, batch[1..])
  }

  /** Sifting leaves what came before alone, keeps only batch entries, and feeds all of them. */
  lemma {:induction false} SiftFeeds(g: Graph, before: seq<Id>, batch: seq<Id>)
    requires forall k :: 0 <= k < |batch| ==> batch[k] in g
    ensures before <= Sift(g, before, batch) && |Sift(g, before, batch)| <= |before| + |batch|
    ensures forall i :: |before| <= i < |Sift(g, before, batch)| ==>
        Fed(g, Sift(g, before, batch), i) && Sift(g, before, batch)[i] in batch
    decreases |batch|
  {
    if batch == [] {
    } else {
      var next := if Ready(g, before, batch[0]) then before + [batch[0]] else before;
      var path := Sift(g, before, batch);
      SiftFeeds(g, next, batch[1..]);
      assert before <= next <= path;
      if Ready(g, before, batch[0]) {
        assert path[|before|] == next[|before|] == batch[0] && path[..|before|] == before;
        assert path[0] == next[0];
        assert Fed(g, path, |before|);
      }
      forall i | |before| <= i < |path| ensures Fed(g, path, i) && path[i] in batch {
        if i >= |next| { assert path[i] in batch[1..]; }
      }
    }
  }

  lemma SiftStep(g: Graph, before: seq<Id>, rest: seq<Id>)
    requires rest != [] && forall k :: 0 <= k < |rest| ==> rest[k] in g
    ensures Sift(g, before, rest) ==
            Sift(g, if Ready(g, before, rest[0]) then before + [rest[0]] else before, rest[1..])
  {
  }

  lemma SiftNone(g: Graph, before: seq<Id>)
    ensures Sift(g, before, []) == before
  {
  }

  /** Nothing is dropped from a batch whose entries are all fed in place. */
  lemma {:induction false} SiftKeeps(g: Graph, before: seq<Id>, batch: seq<Id>)
    requires forall k :: 0 <= k < |batch| ==> batch[k] in g
    requires forall i :: |before| <= i < |before| + |batch| ==> Fed(g, before + batch, i)
    ensures Sift(g, before, batch) == before + batch
    decreases |batch|
  {
    if batch != [] {
      var all, next := before + batch, before + [batch[0]];
      assert Fed(g, all, |before|) && all[..|before|] == before && all[|before|] == batch[0];
      assert next + batch[1..] == all;
      SiftKeeps(g, next, batch[1..]);
    } else {
      assert before + batch == before;
    }
  }

  // ---------- after a batch: successors are appended

  /** `_append_path`: unless it is already the last entry. */
  function Append(path: seq<Id>, x: Id): (r: seq<Id>)
    ensures path <= r && |r| <= |path| + 1
  {
    if path != [] && path[|path| - 1] == x then path else path + [x]
  }

  function Extend(path: seq<Id>, ids: seq<Id>): (r: seq<Id>)
    ensures path <= r && forall j :: |path| <= j < |r| ==> r[j] in ids
    decreases |ids|
  {
    if ids == [] then path
    else
      assert ids == ids[..|ids| - 1] + [ids[|ids| - 1]];
      Append(Extend(path, ids[..|ids| - 1]), ids[|ids| - 1])
  }

  /** No entry that `Extend` appends repeats the entry right before it. */
  lemma {:induction false} ExtendNoStutter(path: seq<Id>, ids: seq<Id>, j: nat)
    requires path != [] && |path| <= j < |Extend(path, ids)|
    ensures Extend(path, ids)[j] != Extend(path, ids)[j - 1]
    decreases |ids|
  {
    if ids == [] {
    } else {
      var before := Extend(path, ids[..|ids| - 1]);
      if j < |before| { ExtendNoStutter(path, ids[..|ids| - 1], j); }
    }
  }

  /** A failed component with a jump goes there, unfiltered, and nowhere else. */
  predicate Jumps(c: Component, failed: bool) {
    failed && c.handler.Goto? && c.handler.ids != []
  }

  function SettleOne(g: Graph, path: seq<Id>, x: Id, failed: bool, ended: bool, chosen: seq<Id>): (r: seq<Id>)
    requires x in g && ComponentOk(g, g[x])
    ensures path <= r
  {
    if Jumps(g[x], failed) then path + g[x].handler.ids else Extend(path, Successors(g, g[x], ended, chosen))
  }

  /** The path after settling the entries `[from, to)`. */
  ghost function Settled(g: Graph, path: seq<Id>, lo: nat, hi: nat, o: Oracle, round: nat): (r: seq<Id>)
    requires GraphOk(g) && lo <= hi <= |path| && forall i :: lo <= i < hi ==> path[i] in g
    ensures path <= r
    decreases hi
  {
    if lo == hi then path
    else
      var before := Settled(g, path, lo, hi - 1, o, round);
      var x := path[hi - 1];
      ComponentFits(g, x);
      SettleOne(g, before, x, o.fails(round, hi - 1), o.ends(round, hi - 1), o.chooses(round, hi - 1, x))
  }

  /** Every entry that settling appends follows one of the settled entries. */
  lemma {:induction false} SettledFollows(g: Graph, path: seq<Id>, lo: nat, hi: nat, o: Oracle, round: nat, j: nat)
    requires GraphOk(g) && OracleOk(g, o) && lo <= hi <= |path| && forall i :: lo <= i < hi ==> path[i] in g
    requires |path| <= j < |Settled(g, path, lo, hi, o, round)|
    ensures exists i :: lo <= i < hi && Follows(g, path[i], Settled(g, path, lo, hi, o, round)[j])
    decreases hi
  {
    hide Follows, OracleOk, Settled, SettleOne, GraphOk;
    if lo == hi {
      SettledNone(g, path, lo, o, round);
    } else {
      var before := Settled(g, path, lo, hi - 1, o, round);
      var x := path[hi - 1];
      SettledStep(g, path, lo, hi, o, round);
      if j < |before| {
        SettledFollows(g, path, lo, hi - 1, o, round, j);
      } else {
        SettleOneFollows(g, before, x, o, round, hi - 1, j);
        assert Follows(g, path[hi - 1], Settled(g, path, lo, hi, o, round)[j]);
      }
    }
  }

  lemma SettledNone(g: Graph, path: seq<Id>, lo: nat, o: Oracle, round: nat)
    requires GraphOk(g) && lo <= |path|
    ensures Settled(g, path, lo, lo, o, round) == path
  {
  }

  lemma SettledStep(g: Graph, path: seq<Id>, lo: nat, hi: nat, o: Oracle, round: nat)
    requires GraphOk(g) && lo < hi <= |path| && forall i :: lo <= i < hi ==> path[i] in g
    ensures var x := path[hi - 1];
            ComponentOk(g, g[x]) &&
            var before, after := Settled(g, path, lo, hi - 1, o, round), Settled(g, path, lo, hi, o, round);
            after == SettleOne(g, before, x, o.fails(round, hi - 1), o.ends(round, hi - 1), o.chooses(round, hi - 1, x))
            && path <= before <= after
  {
    hide SettleOne;
    ComponentFits(g, path[hi - 1]);
  }

  lemma SettleOneFollows(g: Graph, before: seq<Id>, x: Id, o: Oracle, round: nat, i: nat, j: nat)
    requires GraphOk(g) && OracleOk(g, o) && x in g && ComponentOk(g, g[x])
    requires |before| <= j < |SettleOne(g, before, x, o.fails(round, i), o.ends(round, i), o.chooses(round, i, x))|
    ensures Follows(g, x, SettleOne(g, before, x, o.fails(round, i), o.ends(round, i), o.chooses(round, i, x))[j])
  {
    var chosen := o.chooses(round, i, x);
    var r := SettleOne(g, before, x, o.fails(round, i), o.ends(round, i), chosen);
    if Jumps(g[x], o.fails(round, i)) {
      assert r[j] in g[x].handler.ids;
    } else {
      SuccessorsFollow(g, x, o.ends(round, i), chosen, r[j]);
    }
  }

  /** Some settled entry failed without a handler. */
  ghost predicate Broken(g: Graph, path: seq<Id>, lo: nat, hi: nat, o: Oracle, round: nat)
    requires lo <= hi <= |path| && forall i :: lo <= i < hi ==> path[i] in g
  {
    exists i :: lo <= i < hi && o.fails(round, i) && Unhandled(g[path[i]])
  }

  /** Neither a jump nor a default answer. */
  predicate Unhandled(c: Component): (u: bool)
    ensures u <==> c.handler == NoHandler || c.handler == Goto([])
  {
    !(c.handler.Goto? && c.handler.ids != []) && !c.handler.DefaultAnswer?
  }

  // ---------- suspension

  predicate IsFill(g: Graph, x: Id) {
    x in g && g[x].kind == FillUp
  }

  function Pick(g: Graph, s: seq<Id>, fill: bool): (r: seq<Id>)
    ensures forall x :: x in r <==> x in s && IsFill(g, x) == fill
  {
    if s == [] then [] else
    assert s == s[..|s| - 1] + [s[|s| - 1]];
    Pick(g, s[..|s| - 1], fill) + if IsFill(g, s[|s| - 1]) == fill then [s[|s| - 1]] else []
  }

  /** Fill-ups first, everything else after, both in their old order. */
  function Suspension(g: Graph, tail: seq<Id>): seq<Id> {
    Pick(g, tail, true) + Pick(g, tail, false)
  }

  lemma {:induction false} SuspensionPermutes(g: Graph, tail: seq<Id>)
    ensures multiset(Suspension(g, tail)) == multiset(tail)
    decreases |tail|
  {
    if tail == [] {
    } else {
      var init, last := tail[..|tail| - 1], tail[|tail| - 1];
      SuspensionPermutes(g, init);
      assert tail == init + [last];
      var a, b := Pick(g, init, true), Pick(g, init, false);
      assert multiset(a + b) == multiset(a) + multiset(b) == multiset(init);
    }
  }

  /** How the next run enters: at a fill-up that ends the path, else at an appended "begin". */
  function Entered(path: seq<Id>): (r: seq<Id>)
    ensures r != [] && path <= r
  {
    if path == [] || !FillId(path[|path| - 1]) then path + ["begin"] else path
  }

  datatype Status = Finished | Failed | Suspended | Running

  /** How a run ends: `trail` is the path just before it is cut or reordered, `done` how much of
      it has been executed, and `ran` the end of the last batch, counting a batch that failed. */
  datatype Outcome = Outcome(status: Status, trail: seq<Id>, done: nat, ran: nat)

  /** The run as a function, watched for at most `rounds` batches: sift, settle, then stop on an
      unhandled failure, suspend if a fill-up waits, or go on. */
  ghost function RunFrom(g: Graph, path: seq<Id>, first: nat, idx: nat, o: Oracle, round: nat, rounds: nat): Outcome
    requires GraphOk(g) && OracleOk(g, o) && Entry(path, first, idx) && Trail(g, path, first, idx) && round <= rounds
    decreases rounds - round
  {
    if idx >= |path| then Outcome(Finished, path, idx, idx)
    else if round == rounds then Outcome(Running, path, idx, idx)
    else
      RoundTrail(g, path, first, idx, o, round);
      var sifted := Sift(g, path[..idx], path[idx..]);
      var hi := |sifted|;
      var after := Settled(g, sifted, idx, hi, o, round);
      if Broken(g, sifted, idx, hi, o, round) then Outcome(Failed, path, idx, hi)
      else if FillAhead(g, after, hi) then Outcome(Suspended, after, hi, hi)
      else RunFrom(g, after, first, hi, o, round + 1, rounds)
  }

  ghost predicate FillAhead(g: Graph, path: seq<Id>, idx: nat) {
    exists k :: idx <= k < |path| && IsFill(g, path[k])
  }

  ghost function RunOf(g: Graph, path: seq<Id>, o: Oracle, rounds: nat): Outcome
    requires GraphOk(g) && OracleOk(g, o) && Known(g, path)
  {
    hide GraphOk, OracleOk, Trail, Entry, FillId, RunFrom;
    var entered := Entered(path);
    KnownEntry(g, path);
    StartTrail(g, entered);
    RunFrom(g, entered, |entered| - 1, |entered| - 1, o, 0, rounds)
  }

  /** The positions `[lo, hi)`. */
  function Span(lo: nat, hi: nat): (s: seq<nat>)
    requires lo <= hi
    ensures |s| == hi - lo && forall k :: 0 <= k < |s| ==> s[k] == lo + k
  {
    seq(hi - lo, k requires k >= 0 => lo + k)
  }

  lemma SpanJoin(lo: nat, mid: nat, hi: nat)
    requires lo <= mid <= hi
    ensures Span(lo, mid) + Span(mid, hi) == Span(lo, hi)
  {
  }

  /** `settled` records the positions settled so far, in order. */
  class Run {
    const graph: Graph
    var path: seq<Id>
    var error: bool
    ghost var settled: seq<nat>

    constructor (graph: Graph, path: seq<Id>)
      ensures this.graph == graph && this.path == path && !error && settled == []
    {
      this.graph, this.path, error, settled := graph, path, false, [];
    }

    /** Walk the batch `[f, t)`, popping entries whose inputs are missing as they are met. */
    method RunBatch(f: nat, t: nat)
      requires f <= t == |path| && forall k :: f <= k < t ==> path[k] in graph
      modifies `path
      ensures path == Sift(graph, old(path)[..f], old(path)[f..])
    {
      hide Sift, FillId;
      var i, last := f, t;
      assert path == path[..f] + path[f..];
      while i < last
        invariant f <= i <= last == |path| && forall k :: i <= k < |path| ==> path[k] in graph
        invariant Sift(graph, path[..i], path[i..]) == Sift(graph, old(path)[..f], old(path)[f..])
        decreases last - i
      {
        var x := path[i];
        ghost var before, rest := path[..i], path[i..];
        SiftStep(graph, before, rest);
        assert path[0] == if before == [] then x else before[0];
        if Exempt(graph[x]) || FillId(path[0])
           || forall k :: 0 <= k < |graph[x].needs| ==> graph[x].needs[k] in path[..i] {
          i := i + 1;
          assert path[..i] == before + [x] && path[i..] == rest[1..];
        } else {
          path := path[..i] + path[i + 1..];
          last := last - 1;
          assert path[..i] == before && path[i..] == rest[1..];
        }
      }
      assert path[..i] == path && path[i..] == [];
      SiftNone(graph, path);
    }

    method AppendPath(x: Id, jumped: bool)
      requires path != []
      modifies `path
      ensures path == if jumped then old(path) else Append(old(path), x)
    {
      if jumped || path[|path| - 1] == x {
        return;
      }
      path := path + [x];
    }

    method ExtendPath(ids: seq<Id>, jumped: bool)
      requires path != []
      modifies `path
      ensures path == if jumped then old(path) else Extend(old(path), ids)
    {
      if jumped {
        return;
      }
      assert ids[..0] == [];
      for k := 0 to |ids|
        invariant path != [] && path == Extend(old(path), ids[..k])
      {
        assert ids[..k + 1][..k] == ids[..k];
        AppendPath(ids[k], jumped);
      }
      assert ids[..|ids|] == ids;
    }

    /** Settle one executed entry: note an unhandled failure, jump, or hand on control. */
    method Settle(i: nat, o: Oracle, round: nat)
      requires GraphOk(graph) && i < |path| && InGraph(graph, path[i])
      modifies `path, `error, `settled
      ensures settled == old(settled) + [i]
      ensures var x := old(path)[i];
              path == SettleOne(graph, old(path), x, o.fails(round, i), o.ends(round, i), o.chooses(round, i, x))
      ensures error == (old(error) || (o.fails(round, i) && Unhandled(graph[old(path)[i]])))
    {
      settled := settled + [i];
      var x := path[i];
      var c := graph[x];
      ComponentFits(graph, x);
      var jumped := false;
      if o.fails(round, i) {
        if c.handler.Goto? && c.handler.ids != [] {
          path := path + c.handler.ids;
          jumped := true;
        } else if !c.handler.DefaultAnswer? {
          error := true;
        }
      }
      ExtendPath(Successors(graph, c, o.ends(round, i), o.chooses(round, i, x)), jumped);
    }

    method SettleBatch(lo: nat, hi: nat, o: Oracle, round: nat)
      requires GraphOk(graph) && lo <= hi <= |path| && forall i :: lo <= i < hi ==> path[i] in graph
      modifies `path, `error, `settled
      ensures settled == old(settled) + Span(lo, hi)
      ensures path == Settled(graph, old(path), lo, hi, o, round)
      ensures error == (old(error) || Broken(graph, old(path), lo, hi, o, round))
    {
      ghost var path0, error0, settled0 := path, error, settled;
      hide GraphOk, SettleOne, Settled, Broken, Span;
      SettledNone(graph, path, lo, o, round);
      BrokenNone(graph, path, lo, o, round);
      SpanJoin(lo, lo, lo);
      assert settled0 + Span(lo, lo) == settled0 by { assert |Span(lo, lo)| == 0; }
      for i := lo to hi
        invariant path0 <= path && path == Settled(graph, path0, lo, i, o, round)
        invariant error == (error0 || Broken(graph, path0, lo, i, o, round))
        invariant settled == settled0 + Span(lo, i)
      {
        assert path[i] == path0[i] && InGraph(graph, path[i]);
        BrokenStep(graph, path0, lo, i, o, round);
        SettledStep(graph, path0, lo, i + 1, o, round);
        SpanJoin(lo, i, i + 1);
        assert Span(i, i + 1) == [i];
        Settle(i, o, round);
      }
    }

    /** One batch and its settling. */
    method Round(idx: nat, o: Oracle, round: nat, ghost first: nat) returns (hi: nat)
      requires GraphOk(graph) && OracleOk(graph, o) && !error
      requires Entry(path, first, idx) && Trail(graph, path, first, idx) && idx < |path|
      modifies `path, `error, `settled
      ensures idx <= hi <= |path| && old(path)[..idx] <= path
      ensures settled == old(settled) + Span(idx, hi)
      ensures Entry(path, first, hi) && Trail(graph, path, first, hi)
      ensures forall k :: 0 <= k < |old(path)[idx..]| ==> old(path)[idx..][k] in graph
      ensures var sifted := Sift(graph, old(path)[..idx], old(path)[idx..]);
              hi == |sifted| && (forall k :: idx <= k < hi ==> sifted[k] in graph)
              && path == Settled(graph, sifted, idx, hi, o, round)
              && error == Broken(graph, sifted, idx, hi, o, round)
    {
      hide GraphOk, OracleOk, Trail, Sift, Settled, Broken, Fed, Justified;
      TrailKnown(graph, path, first, idx);
      RunBatch(idx, |path|);
      ghost var sifted := path;
      hi := |path|;
      SiftBounds(graph, old(path)[..idx], old(path)[idx..]);
      SettleBatch(idx, hi, o, round);
      RoundTrail(graph, old(path), first, idx, o, round);
    }

    /** A whole run, watched for at most `rounds` batches: it does what `RunOf` says, and what it
        leaves behind is a trail. */
    method Go(o: Oracle, rounds: nat) returns (status: Status, ghost trail: seq<Id>, ghost first: nat, ghost done: nat)
      requires GraphOk(graph) && OracleOk(graph, o) && Known(graph, path)
      modifies this
      ensures var out := RunOf(graph, old(path), o, rounds);
              out == Outcome(status, trail, done, out.ran) && first <= out.ran && settled == Span(first, out.ran)
      ensures first == |Entered(old(path))| - 1 && Entered(old(path))[..first] <= trail
      ensures Trail(graph, trail, first, done)
      ensures status == Finished ==> !error && path == trail != [] && done == |path|
      ensures status == Failed ==> error && path == trail[..done] && done < |trail|
      ensures status == Suspended ==>
                !error && path == Suspension(graph, trail[done..]) && exists x :: x in path && IsFill(graph, x)
      ensures status == Running ==> !error && path == trail && done < |path|
    {
      hide GraphOk, OracleOk, Trail, Fed, Justified, Sift, Settled, Broken, RunFrom, FillId, Span;
      ghost var path0 := path;
      KnownEntry(graph, path0);
      path := Entered(path);
      error := false;
      settled := [];
      var idx := |path| - 1;
      first := idx;
      StartTrail(graph, path);
      var round := 0;
      while idx < |path| && round < rounds
        invariant !error && first <= idx <= |path| && round <= rounds && Entered(path0)[..first] <= path
        invariant Entry(path, first, idx) && Trail(graph, path, first, idx)
        invariant RunFrom(graph, path, first, idx, o, round, rounds) == RunOf(graph, path0, o, rounds)
        invariant settled == Span(first, idx)
        decreases rounds - round
      {
        trail, done := path, idx;
        RunStep(graph, path, first, idx, o, round, rounds);
        var hi := Round(idx, o, round, first);
        SpanJoin(first, idx, hi);
        if error {
          path := path[..idx];
          return Failed, trail, first, done;
        }
        idx := hi;
        if exists k :: idx <= k < |path| && IsFill(graph, path[k]) {
          trail, done := path, idx;
          path := Suspension(graph, path[idx..]);
          SomeFill(graph, trail[done..]);
          return Suspended, trail, first, done;
        }
        round := round + 1;
      }
      trail, done := path, idx;
      RunEnd(graph, path, first, idx, o, round, rounds);
      status := if idx < |path| then Running else Finished;
    }
  }

  lemma KnownEntry(g: Graph, path: seq<Id>)
    requires GraphOk(g) && Known(g, path)
    ensures var e := Entered(path); e[|e| - 1] in g && (e[|e| - 1] == "begin" || FillId(e[|e| - 1]))
  {
    hide FillId;
  }

  lemma RunStep(g: Graph, path: seq<Id>, first: nat, idx: nat, o: Oracle, round: nat, rounds: nat)
    requires GraphOk(g) && OracleOk(g, o) && Entry(path, first, idx) && Trail(g, path, first, idx) && idx < |path|
    requires round < rounds
    ensures forall k :: 0 <= k < |path[idx..]| ==> path[idx..][k] in g
    ensures var sifted := Sift(g, path[..idx], path[idx..]); var hi := |sifted|;
            idx <= hi && (forall i :: idx <= i < hi ==> sifted[i] in g) &&
            var after := Settled(g, sifted, idx, hi, o, round);
            Entry(after, first, hi) && Trail(g, after, first, hi) &&
            RunFrom(g, path, first, idx, o, round, rounds) ==
              if Broken(g, sifted, idx, hi, o, round) then Outcome(Failed, path, idx, hi)
              else if FillAhead(g, after, hi) then Outcome(Suspended, after, hi, hi)
              else RunFrom(g, after, first, hi, o, round + 1, rounds)
  {
    hide GraphOk, OracleOk, Trail, Sift, Settled, Broken, FillAhead, Entry;
    RoundTrail(g, path, first, idx, o, round);
  }

  lemma RunEnd(g: Graph, path: seq<Id>, first: nat, idx: nat, o: Oracle, round: nat, rounds: nat)
    requires GraphOk(g) && OracleOk(g, o) && Entry(path, first, idx) && Trail(g, path, first, idx) && round <= rounds
    requires idx == |path| || round == rounds
    ensures RunFrom(g, path, first, idx, o, round, rounds) ==
        Outcome(if idx < |path| then Running else Finished, path, idx, idx)
  {
  }

  lemma BrokenNone(g: Graph, path: seq<Id>, lo: nat, o: Oracle, round: nat)
    requires lo <= |path|
    ensures !Broken(g, path, lo, lo, o, round)
  {
  }

  lemma BrokenStep(g: Graph, path: seq<Id>, lo: nat, i: nat, o: Oracle, round: nat)
    requires lo <= i < |path| && forall k :: lo <= k <= i ==> path[k] in g
    ensures Broken(g, path, lo, i + 1, o, round) <==>
        Broken(g, path, lo, i, o, round) || (o.fails(round, i) && Unhandled(g[path[i]]))
  {
    hide Unhandled;
  }

  /** The path is never empty, and before its first batch a run has only its own entry ahead. */
  ghost predicate Entry(path: seq<Id>, first: nat, idx: nat) {
    && path != [] && first <= idx <= |path|
    && (idx == first ==> |path| <= first + 1)
    && (idx == 0 ==> path[0] == "begin" || FillId(path[0]))
  }

  lemma StartTrail(g: Graph, path: seq<Id>)
    requires GraphOk(g) && path != [] && path[|path| - 1] in g
    requires (path[|path| - 1] == "begin" || FillId(path[|path| - 1]))
    ensures Entry(path, |path| - 1, |path| - 1) && Trail(g, path, |path| - 1, |path| - 1)
  {
    hide GraphOk, FillId;
  }

  lemma TrailKnown(g: Graph, path: seq<Id>, first: nat, idx: nat)
    requires Trail(g, path, first, idx)
    ensures first <= idx <= |path| && forall k :: idx <= k < |path| ==> path[k] in g
  {
  }

  lemma SomeFill(g: Graph, tail: seq<Id>)
    requires exists k :: 0 <= k < |tail| && IsFill(g, tail[k])
    ensures exists x :: x in Suspension(g, tail) && IsFill(g, x)
  {
    hide IsFill;
    var k :| 0 <= k < |tail| && IsFill(g, tail[k]);
    assert tail[k] in Pick(g, tail, true);
  }

  lemma SiftBounds(g: Graph, before: seq<Id>, batch: seq<Id>)
    requires forall k :: 0 <= k < |batch| ==> batch[k] in g
    ensures before <= Sift(g, before, batch)
    ensures forall i :: |before| <= i < |Sift(g, before, batch)| ==> Sift(g, before, batch)[i] in g
  {
    SiftFeeds(g, before, batch);
    var path := Sift(g, before, batch);
    forall i | |before| <= i < |path| ensures path[i] in g {
      var k :| 0 <= k < |batch| && batch[k] == path[i];
    }
  }

  /** Batch and settling keep the trail, now executed up to the end of the batch. */
  lemma RoundTrail(g: Graph, path: seq<Id>, first: nat, idx: nat, o: Oracle, round: nat)
    requires GraphOk(g) && OracleOk(g, o) && Entry(path, first, idx) && Trail(g, path, first, idx) && idx < |path|
    ensures forall k :: 0 <= k < |path[idx..]| ==> path[idx..][k] in g
    ensures var sifted := Sift(g, path[..idx], path[idx..]); var hi := |sifted|;
            idx <= hi && (forall i :: idx <= i < hi ==> sifted[i] in g) &&
            var after := Settled(g, sifted, idx, hi, o, round);
            path[..idx] <= after && Entry(after, first, hi) && Trail(g, after, first, hi)
  {
    hide GraphOk, OracleOk, Sift, Settled, Ready, FillId, Trail, Fed, Justified, Follows;
    TrailKnown(g, path, first, idx);
    var before, batch := path[..idx], path[idx..];
    SiftFeeds(g, before, batch);
    SiftBounds(g, before, batch);
    var sifted := Sift(g, before, batch);
    var hi := |sifted|;
    var after := Settled(g, sifted, idx, hi, o, round);
    FirstStays(g, path, first, idx);
    RoundJustified(g, path, first, idx, sifted, after, o, round);
    RoundFed(g, path, first, idx, sifted, after);
    TrailIntro(g, after, first, hi);
    if hi == idx { SettledNone(g, sifted, idx, o, round); }
    assert sifted != [] && after[0] == sifted[0];
  }

  lemma TrailIntro(g: Graph, path: seq<Id>, first: nat, done: nat)
    requires first <= done <= |path|
    requires forall j: nat :: first <= j < |path| ==> path[j] in g && (j > first ==> Justified(g, path, first, j, done))
    requires forall i: nat :: first <= i < done ==> Fed(g, path, i)
    ensures Trail(g, path, first, done)
  {
  }

  lemma RoundJustified(g: Graph, path: seq<Id>, first: nat, idx: nat, sifted: seq<Id>, after: seq<Id>, o: Oracle,
                       round: nat)
    requires GraphOk(g) && OracleOk(g, o) && Entry(path, first, idx) && Trail(g, path, first, idx) && idx < |path|
    requires path[..idx] <= sifted && |sifted| <= |path|
    requires forall i :: idx <= i < |sifted| ==> sifted[i] in path[idx..] && sifted[i] in g
    requires after == Settled(g, sifted, idx, |sifted|, o, round)
    ensures forall j: nat :: first <= j < |after| ==>
        after[j] in g && (j > first ==> Justified(g, after, first, j, |sifted|))
  {
    var hi := |sifted|;
    hide GraphOk, OracleOk, Settled, Follows, Trail;
    forall j: nat | first <= j < |after| ensures after[j] in g && (j > first ==> Justified(g, after, first, j, hi)) {
      if j >= hi {
        SettledFollows(g, sifted, idx, hi, o, round, j);
        var i :| idx <= i < hi && Follows(g, sifted[i], after[j]);
        FollowsKnown(g, sifted[i], after[j]);
        assert Follows(g, after[i], after[j]);
      } else if j >= idx {
        KeptJustified(g, path, first, idx, sifted, after, hi, j);
      } else {
        OldJustified(g, path, first, idx, sifted, after, hi, j);
      }
    }
  }

  lemma OldJustified(g: Graph, path: seq<Id>, first: nat, idx: nat, sifted: seq<Id>, after: seq<Id>, hi: nat, j: nat)
    requires Trail(g, path, first, idx) && path[..idx] <= sifted <= after && hi == |sifted| && first <= j < idx
    ensures after[j] in g && (j > first ==> Justified(g, after, first, j, hi))
  {
    hide Follows;
    assert after[j] == sifted[j] == path[j];
    if j > first {
      assert Justified(g, path, first, j, idx);
      var i: nat :| first <= i < j && i < idx && Follows(g, path[i], path[j]);
      assert after[i] == sifted[i] == path[i];
    }
  }

  lemma RoundFed(g: Graph, path: seq<Id>, first: nat, idx: nat, sifted: seq<Id>, after: seq<Id>)
    requires Trail(g, path, first, idx) && path[..idx] <= sifted <= after
    requires forall i :: idx <= i < |sifted| ==> Fed(g, sifted, i)
    ensures forall i: nat :: first <= i < |sifted| ==> Fed(g, after, i)
  {
    hide FillId;
    forall i: nat | first <= i < |sifted| ensures Fed(g, after, i) {
      assert after[..i] == sifted[..i] && after[0] == sifted[0] && after[i] == sifted[i];
      if i < idx {
        assert Fed(g, path, i);
        assert sifted[..i] == path[..i] && sifted[0] == path[0] && sifted[i] == path[i];
      } else {
        assert Fed(g, sifted, i);
      }
    }
  }

  /** A kept entry keeps its justification: the entry that put it there lies before the batch. */
  lemma KeptJustified(g: Graph, path: seq<Id>, first: nat, idx: nat, sifted: seq<Id>, after: seq<Id>, hi: nat, j: nat)
    requires Trail(g, path, first, idx) && Entry(path, first, idx) && idx < |path|
    requires path[..idx] <= sifted <= after && hi == |sifted| && idx <= j < hi
    requires |sifted| <= |path| && sifted[j] in path[idx..]
    ensures after[j] in g && (j > first ==> Justified(g, after, first, j, hi))
  {
    hide Follows;
    var m :| idx <= m < |path| && path[m] == sifted[j];
    if j > first {
      assert m > first;
      assert Justified(g, path, first, m, idx);
      var i: nat :| first <= i < m && i < idx && Follows(g, path[i], path[m]);
      assert after[i] == sifted[i] == path[i] && after[j] == path[m];
    }
  }

  /** The entry a run starts with survives its own batch. */
  lemma FirstStays(g: Graph, path: seq<Id>, first: nat, idx: nat)
    requires GraphOk(g) && Entry(path, first, idx) && idx < |path| && forall k :: idx <= k < |path| ==> path[k] in g
    ensures idx == 0 ==> |Sift(g, path[..idx], path[idx..])| == 1
  {
    if idx == 0 {
      assert path[..0] == [] && path[0..] == [path[0]];
      assert Ready(g, [], path[0]);
      assert [path[0]][1..] == [] && [] + [path[0]] == [path[0]];
    }
  }
}
