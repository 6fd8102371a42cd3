/** Who hands control to whom in a run: every entry is put on the path by an executed entry that
    handed control to it, and what an executed entry hands control to arrives, or is dropped for want
    of inputs. */
module CanvasHanded {
  import opened CanvasGraph
  import opened Canvas
  import CanvasRuns

  /** The entry `x`, executed at position `i` in the given round, hands control to `b`: by its jump if
      it failed and has one, else as its kind says. */
  ghost predicate Handed(g: Graph, o: Oracle, round: nat, i: nat, x: Id, b: Id) {
    x in g && ComponentOk(g, g[x])
    && if o.fails(round, i) && g[x].handler.Goto? && g[x].handler.ids != [] then b in g[x].handler.ids
       else Hands(g, g[x], o.ends(round, i), o.chooses(round, i, x), b)
  }

  // ---------- settling one entry

  /** What is appended is taken from the list, and what is in the list stands in the path from the
      former last entry on. */
  lemma {:induction false} ExtendArrives(path: seq<Id>, ids: seq<Id>, b: Id)
    requires path != [] && b in ids
    ensures exists j :: |path| - 1 <= j < |Extend(path, ids)| && Extend(path, ids)[j] == b
    decreases |ids|
  {
    var init, last := ids[..|ids| - 1], ids[|ids| - 1];
    var before, r := Extend(path, init), Extend(path, ids);
    assert ids == init + [last];
    if b in init {
      ExtendArrives(path, init, b);
      var j :| |path| - 1 <= j < |before| && before[j] == b;
      assert r[j] == b;
    } else {
      assert r[|r| - 1] == b;
    }
  }

  ghost predicate ArrivesFrom(path: seq<Id>, lo: nat, b: Id) {
    exists j: nat :: lo <= j < |path| && path[j] == b
  }

  lemma ArrivesLater(path: seq<Id>, longer: seq<Id>, lo: nat, b: Id)
    requires path <= longer && ArrivesFrom(path, lo, b)
    ensures ArrivesFrom(longer, lo, b)
  {
    var j: nat :| lo <= j < |path| && path[j] == b;
    assert longer[j] == b;
  }

  /** Settling one entry appends only what it hands control to, and all of that then stands in the
      path from the former last entry on. */
  lemma SettleOneHands(g: Graph, before: seq<Id>, x: Id, o: Oracle, round: nat, i: nat)
    requires x in g && ComponentOk(g, g[x]) && before != []
    ensures var r := SettleOne(g, before, x, o.fails(round, i), o.ends(round, i), o.chooses(round, i, x));
            && (forall j :: |before| <= j < |r| ==> Handed(g, o, round, i, x, r[j]))
            && forall b :: Handed(g, o, round, i, x, b) ==> ArrivesFrom(r, |before| - 1, b)
  {
    hide ComponentOk, Hands, Successors;
    var chosen := o.chooses(round, i, x);
    var r := SettleOne(g, before, x, o.fails(round, i), o.ends(round, i), chosen);
    if Jumps(g[x], o.fails(round, i)) {
      var ids := g[x].handler.ids;
      forall b | b in ids ensures ArrivesFrom(r, |before| - 1, b) {
        var k :| 0 <= k < |ids| && ids[k] == b;
        assert r[|before| + k] == b;
      }
    } else {
      var ids := Successors(g, g[x], o.ends(round, i), chosen);
      forall b ensures b in ids <==> Handed(g, o, round, i, x, b) {
        SuccessorsExactly(g, g[x], o.ends(round, i), chosen, b);
      }
      forall b | b in ids ensures ArrivesFrom(r, |before| - 1, b) {
        ExtendArrives(before, ids, b);
      }
    }
  }

  // ---------- settling a batch

  /** Everything that settling appends was handed control by an entry settled, in this round. */
  ghost predicate HandedIn(g: Graph, o: Oracle, round: nat, path: seq<Id>, lo: nat, hi: nat, b: Id)
    requires hi <= |path|
  {
    exists i: nat :: lo <= i < hi && Handed(g, o, round, i, path[i], b)
  }

  lemma {:induction false} SettledHands(g: Graph, path: seq<Id>, lo: nat, hi: nat, o: Oracle, round: nat)
    requires GraphOk(g) && lo <= hi <= |path| && forall i :: lo <= i < hi ==> path[i] in g
    ensures var r := Settled(g, path, lo, hi, o, round);
            && (forall j :: |path| <= j < |r| ==> HandedIn(g, o, round, path, lo, hi, r[j]))
            && forall i: nat, b :: lo <= i < hi && Handed(g, o, round, i, path[i], b) ==> ArrivesFrom(r, |path| - 1, b)
    decreases hi
  {
    hide GraphOk, Handed, Settled, SettleOne, ArrivesFrom, ComponentOk;
    if lo == hi {
      SettledNone(g, path, lo, o, round);
    } else {
      var before, r := Settled(g, path, lo, hi - 1, o, round), Settled(g, path, lo, hi, o, round);
      var x := path[hi - 1];
      SettledHands(g, path, lo, hi - 1, o, round);
      SettledStep(g, path, lo, hi, o, round);
      SettleOneHands(g, before, x, o, round, hi - 1);
      forall j | |path| <= j < |r| ensures HandedIn(g, o, round, path, lo, hi, r[j]) {
        if j < |before| {
          assert HandedIn(g, o, round, path, lo, hi - 1, before[j]);
        } else {
          assert Handed(g, o, round, hi - 1, path[hi - 1], r[j]);
        }
      }
      forall i: nat, b | lo <= i < hi && Handed(g, o, round, i, path[i], b) ensures ArrivesFrom(r, |path| - 1, b) {
        if i < hi - 1 {
          ArrivesLater(before, r, |path| - 1, b);
        } else {
          ArrivesEarlier(r, |before| - 1, |path| - 1, b);
        }
      }
    }
  }

  lemma SettledSource(g: Graph, path: seq<Id>, lo: nat, hi: nat, o: Oracle, round: nat, after: seq<Id>, j: nat)
    requires GraphOk(g) && lo <= hi <= |path| && forall i :: lo <= i < hi ==> path[i] in g
    requires after == Settled(g, path, lo, hi, o, round) && |path| <= j < |after|
    ensures HandedIn(g, o, round, path, lo, hi, after[j])
  {
    hide GraphOk, Settled, HandedIn;
    SettledHands(g, path, lo, hi, o, round);
  }

  lemma ArrivesEarlier(path: seq<Id>, hi: nat, lo: nat, b: Id)
    requires ArrivesFrom(path, hi, b) && lo <= hi
    ensures ArrivesFrom(path, lo, b)
  {
  }

  // ---------- sifting a batch

  /** At some point among the kept entries `x` was looked at and its inputs were missing. */
  ghost predicate Starved(g: Graph, path: seq<Id>, lo: nat, hi: nat, x: Id)
    requires hi <= |path|
  {
    x in g && exists k: nat :: lo <= k <= hi && !Ready(g, path[..k], x)
  }

  /** An entry of a batch is kept, or dropped because its inputs were missing there. */
  lemma {:induction false} SiftDrops(g: Graph, before: seq<Id>, batch: seq<Id>, x: Id)
    requires (forall k :: 0 <= k < |batch| ==> batch[k] in g) && x in batch
    ensures var r := Sift(g, before, batch);
            ArrivesFrom(r, |before|, x) || Starved(g, r, |before|, |r|, x)
    decreases |batch|
  {
    hide Ready;
    var r := Sift(g, before, batch);
    SiftFeeds(g, before, batch);
    SiftStep(g, before, batch);
    var next := if Ready(g, before, batch[0]) then before + [batch[0]] else before;
    SiftFeeds(g, next, batch[1..]);
    if x == batch[0] {
      if Ready(g, before, x) {
        assert r[|before|] == next[|before|] == x;
      } else {
        assert r[..|before|] == before;
      }
    } else {
      assert batch == [batch[0]] + batch[1..];
      SiftDrops(g, next, batch[1..], x);
    }
  }

  /** The entries kept are entries of the batch, in their old order. */
  lemma {:induction false} SiftOrder(g: Graph, before: seq<Id>, batch: seq<Id>) returns (places: seq<nat>)
    requires forall k :: 0 <= k < |batch| ==> batch[k] in g
    ensures CanvasRuns.Increasing(places) && |Sift(g, before, batch)| == |before| + |places|
    ensures forall k :: 0 <= k < |places| ==>
                places[k] < |batch| && Sift(g, before, batch)[|before| + k] == batch[places[k]]
    decreases |batch|
  {
    hide Ready;
    places := [];
    if batch == [] {
    } else {
      var kept := Ready(g, before, batch[0]);
      var next := if kept then before + [batch[0]] else before;
      SiftFeeds(g, next, batch[1..]);
      var rest := SiftOrder(g, next, batch[1..]);
      places := (if kept then [0] else []) + seq(|rest|, k requires 0 <= k < |rest| => rest[k] + 1);
      assert kept ==> Sift(g, before, batch)[|before|] == next[|before|];
    }
  }

  // ---------- over a run

  /** Entry `j` was put on the path by an executed entry before it that handed control to it. */
  ghost predicate Sprung(g: Graph, o: Oracle, path: seq<Id>, first: nat, done: nat, rounds: seq<nat>, j: nat)
    requires done <= |path| && done <= |rounds| && j < |path|
  {
    exists i: nat :: first <= i < j && i < done && Handed(g, o, rounds[i], i, path[i], path[j])
  }

  /** `b` is on the path from entry `i` on, or was dropped from a later batch for want of inputs. */
  ghost predicate Arrives(g: Graph, path: seq<Id>, done: nat, i: nat, b: Id)
    requires done <= |path|
  {
    ArrivesFrom(path, i, b) || Starved(g, path, i, done, b)
  }

  /** Position `i` of the path was executed in round `rounds[i]`: nothing is on the path that was not
      handed control, and whatever an executed entry hands control to arrives. */
  ghost predicate Recorded(g: Graph, o: Oracle, path: seq<Id>, first: nat, done: nat, rounds: seq<nat>, round: nat) {
    && first <= done <= |path| && |rounds| == done
    && (forall i, k :: first <= i < k < done ==> rounds[i] <= rounds[k])
    && (forall i :: first <= i < done ==> rounds[i] < round)
    && (forall j: nat :: first < j < |path| ==> Sprung(g, o, path, first, done, rounds, j))
    && forall i: nat, b :: first <= i < done && Handed(g, o, rounds[i], i, path[i], b) ==> Arrives(g, path, done, i, b)
  }

  /** One more round, whose batch `[idx, hi)` is executed in round `round`. */
  function Stamped(rounds: seq<nat>, hi: nat, round: nat): (r: seq<nat>)
    requires |rounds| <= hi
    ensures |r| == hi && rounds <= r && forall i :: |rounds| <= i < hi ==> r[i] == round
  {
    rounds + seq(hi - |rounds|, k => round)
  }

  lemma RecordedRound(g: Graph, o: Oracle, path: seq<Id>, first: nat, idx: nat, rounds: seq<nat>, round: nat)
    requires GraphOk(g) && OracleOk(g, o) && Entry(path, first, idx) && Trail(g, path, first, idx) && idx < |path|
    requires Recorded(g, o, path, first, idx, rounds, round)
    ensures forall k :: 0 <= k < |path[idx..]| ==> path[idx..][k] in g
    ensures var sifted := Sift(g, path[..idx], path[idx..]);
            idx <= |sifted| && (forall i :: idx <= i < |sifted| ==> sifted[i] in g)
            && Recorded(g, o, Settled(g, sifted, idx, |sifted|, o, round), first, |sifted|,
                        Stamped(rounds, |sifted|, round), round + 1)
  {
    hide GraphOk, OracleOk, Sift, Settled, Trail, Sprung, Handed, Arrives, ArrivesFrom;
    TrailKnown(g, path, first, idx);
    var before, batch := path[..idx], path[idx..];
    SiftFeeds(g, before, batch);
    SiftBounds(g, before, batch);
    var sifted := Sift(g, before, batch);
    var hi := |sifted|;
    var after, stamped := Settled(g, sifted, idx, hi, o, round), Stamped(rounds, hi, round);
    SettledHands(g, sifted, idx, hi, o, round);
    forall j: nat | first < j < |after| ensures Sprung(g, o, after, first, hi, stamped, j) {
      if j >= hi {
        SettledSource(g, sifted, idx, hi, o, round, after, j);
        NewSprung(g, o, sifted, after, first, idx, hi, stamped, round, j);
      } else {
        var m: nat := if j < idx then j else Place(path, idx, sifted[j]);
        assert j >= idx ==> sifted[j] in batch;
        assert Sprung(g, o, path, first, idx, rounds, m);
        OldSprung(g, o, path, sifted, after, first, idx, hi, rounds, stamped, m, j);
      }
    }
    forall i: nat, b | first <= i < hi && Handed(g, o, stamped[i], i, after[i], b) ensures Arrives(g, after, hi, i, b) {
      assert after[i] == sifted[i];
      if i >= idx {
        LastArrives(g, after, hi, i, b);
      } else {
        assert sifted[i] == path[i] && stamped[i] == rounds[i];
        assert Arrives(g, path, idx, i, b);
        KeptArrives(g, path, idx, sifted, after, i, b);
      }
    }
  }

  /** Where a member of the tail stands. */
  ghost function Place(path: seq<Id>, idx: nat, x: Id): (m: nat)
    requires idx <= |path| && x in path[idx..]
    ensures idx <= m < |path| && path[m] == x
  {
    var k :| 0 <= k < |path[idx..]| && path[idx..][k] == x;
    idx + k
  }

  lemma NewSprung(g: Graph, o: Oracle, sifted: seq<Id>, after: seq<Id>, first: nat, idx: nat, hi: nat,
                  stamped: seq<nat>, round: nat, j: nat)
    requires sifted <= after && hi == |sifted| == |stamped| && first <= idx <= hi <= j < |after|
    requires forall i :: idx <= i < hi ==> stamped[i] == round
    requires HandedIn(g, o, round, sifted, idx, hi, after[j])
    ensures Sprung(g, o, after, first, hi, stamped, j)
  {
    hide Handed;
    var i: nat :| idx <= i < hi && Handed(g, o, round, i, sifted[i], after[j]);
    assert Handed(g, o, stamped[i], i, after[i], after[j]);
  }

  lemma OldSprung(g: Graph, o: Oracle, path: seq<Id>, sifted: seq<Id>, after: seq<Id>, first: nat, idx: nat, hi: nat,
                  rounds: seq<nat>, stamped: seq<nat>, m: nat, j: nat)
    requires idx <= |path| && path[..idx] <= sifted <= after && idx <= hi == |sifted| == |stamped| && |rounds| == idx
    requires rounds <= stamped && m < |path| && j < hi && path[m] == sifted[j]
    requires Sprung(g, o, path, first, idx, rounds, m) && (j == m || (j >= idx && m >= idx))
    ensures Sprung(g, o, after, first, hi, stamped, j)
  {
    hide Handed;
    var i: nat :| first <= i < m && i < idx && Handed(g, o, rounds[i], i, path[i], path[m]);
    assert after[i] == sifted[i] == path[i] && stamped[i] == rounds[i] && after[j] == path[m];
  }

  lemma LastArrives(g: Graph, after: seq<Id>, hi: nat, i: nat, b: Id)
    requires i < hi <= |after| && ArrivesFrom(after, hi - 1, b)
    ensures Arrives(g, after, hi, i, b)
  {
    ArrivesEarlier(after, hi - 1, i, b);
  }

  /** What has arrived stays, unless the next batch drops it. */
  lemma KeptArrives(g: Graph, path: seq<Id>, idx: nat, sifted: seq<Id>, after: seq<Id>, i: nat, b: Id)
    requires i < idx <= |path| && Arrives(g, path, idx, i, b) && path[..idx] <= sifted <= after
    requires forall k :: 0 <= k < |path[idx..]| ==> path[idx..][k] in g
    requires sifted == Sift(g, path[..idx], path[idx..])
    ensures Arrives(g, after, |sifted|, i, b)
  {
    hide Ready, Sift;
    if ArrivesFrom(path, i, b) {
      var j: nat :| i <= j < |path| && path[j] == b;
      if j < idx {
        assert after[j] == sifted[j] == b;
      } else {
        assert path[idx..][j - idx] == b;
        SiftDrops(g, path[..idx], path[idx..], b);
        if ArrivesFrom(sifted, idx, b) {
          ArrivesEarlier(sifted, idx, i, b);
          ArrivesLater(sifted, after, i, b);
        } else {
          StarvedLater(g, sifted, idx, |sifted|, after, i, |sifted|, b);
        }
      }
    } else {
      StarvedLater(g, path, i, idx, after, i, |sifted|, b);
    }
  }

  lemma StarvedLater(g: Graph, path: seq<Id>, lo: nat, hi: nat, after: seq<Id>, lo': nat, hi': nat, x: Id)
    requires hi <= |path| && Starved(g, path, lo, hi, x) && lo' <= lo && hi <= hi' <= |after|
    requires path[..hi] <= after
    ensures Starved(g, after, lo', hi', x)
  {
    hide Ready;
    var k: nat :| lo <= k <= hi && !Ready(g, path[..k], x);
    assert after[..k] == path[..hi][..k] == path[..k];
  }

  lemma {:induction false} RunRecorded(g: Graph, path: seq<Id>, first: nat, idx: nat, o: Oracle, round: nat,
                                       rounds: nat, when: seq<nat>)
    returns (when': seq<nat>)
    requires GraphOk(g) && OracleOk(g, o) && Entry(path, first, idx) && Trail(g, path, first, idx) && round <= rounds
    requires Recorded(g, o, path, first, idx, when, round)
    ensures var out := RunFrom(g, path, first, idx, o, round, rounds);
            Recorded(g, o, out.trail, first, out.done, when', rounds)
    decreases rounds - round
  {
    hide GraphOk, OracleOk, Entry, Trail, Sift, Settled, Broken, FillAhead, RunFrom, Recorded;
    CanvasRuns.EntryOrder(path, first, idx);
    RecordedLength(g, o, path, first, idx, when, round);
    if idx >= |path| || round == rounds {
      CanvasRuns.AtEnd(g, path, first, idx, o, round, rounds);
      when' := when;
      RecordedLater(g, o, path, first, idx, when, round, rounds);
    } else {
      RunStep(g, path, first, idx, o, round, rounds);
      RecordedRound(g, o, path, first, idx, when, round);
      var sifted := Sift(g, path[..idx], path[idx..]);
      var after, stamped := Settled(g, sifted, idx, |sifted|, o, round), Stamped(when, |sifted|, round);
      if Broken(g, sifted, idx, |sifted|, o, round) {
        when' := when;
        RecordedLater(g, o, path, first, idx, when, round, rounds);
      } else if FillAhead(g, after, |sifted|) {
        when' := stamped;
        RecordedLater(g, o, after, first, |sifted|, stamped, round + 1, rounds);
      } else {
        when' := RunRecorded(g, after, first, |sifted|, o, round + 1, rounds, stamped);
      }
    }
  }

  lemma RecordedLength(g: Graph, o: Oracle, path: seq<Id>, first: nat, done: nat, when: seq<nat>, round: nat)
    requires Recorded(g, o, path, first, done, when, round)
    ensures |when| == done
  {
  }

  lemma RecordedLater(g: Graph, o: Oracle, path: seq<Id>, first: nat, done: nat, when: seq<nat>, round: nat,
                      later: nat)
    requires Recorded(g, o, path, first, done, when, round) && round <= later
    ensures Recorded(g, o, path, first, done, when, later)
  {
    hide Sprung, Handed, Arrives;
  }

  /** Over a whole run, whatever ends it: every entry after the first was handed control by an executed
      entry before it, and what an executed entry hands control to arrives. */
  lemma RunHands(g: Graph, path: seq<Id>, o: Oracle, rounds: nat) returns (when: seq<nat>)
    requires GraphOk(g) && OracleOk(g, o) && Known(g, path)
    ensures var out := RunOf(g, path, o, rounds);
            Recorded(g, o, out.trail, |Entered(path)| - 1, out.done, when, rounds)
  {
    hide GraphOk, OracleOk, Entry, Trail, RunFrom, RunOf, Known;
    CanvasRuns.RunEntered(g, path, o, rounds);
    var e := Entered(path);
    var start := Stamped([], |e| - 1, 0);
    when := RunRecorded(g, e, |e| - 1, |e| - 1, o, 0, rounds, start);
  }

  // ---------- items of a container

  /** An executed item that did not jump: once its list has ended, exactly what is downstream of its
      container arrives from it; until then it goes one step on, and nothing of that comes from it
      unless it is one step on as well. */
  lemma ItemHands(g: Graph, o: Oracle, path: seq<Id>, first: nat, done: nat, when: seq<nat>, round: nat, i: nat, b: Id)
    requires GraphOk(g) && Recorded(g, o, path, first, done, when, round) && first <= i < done
    requires path[i] in g && g[path[i]].kind in {IterationItem, LoopItem} && !Jumps(g[path[i]], o.fails(when[i], i))
    ensures ComponentOk(g, g[path[i]])
    ensures var c := g[path[i]];
            && Handed(g, o, when[i], i, path[i], b) <==>
                 if o.ends(when[i], i) then b in g[c.parent.value].downstream else StepsTo(g, c, b)
    ensures var c := g[path[i]];
            (if o.ends(when[i], i) then b in g[c.parent.value].downstream else StepsTo(g, c, b)) ==>
              Arrives(g, path, done, i, b)
  {
    hide GraphOk, Sprung, Arrives, Known;
    ComponentFits(g, path[i]);
  }
}
