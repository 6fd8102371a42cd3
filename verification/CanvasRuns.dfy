/** What whole canvas runs guarantee: how a run is suspended, where the next one takes it up, and
    when a run has to end. */
module CanvasRuns {
  import opened Glob
  import opened CanvasGraph
  import opened Canvas

  // ---------- suspension is a stable partition

  ghost predicate Increasing(p: seq<nat>) {
    forall j, k :: 0 <= j < k < |p| ==> p[j] < p[k]
  }

  /** Where the fill-ups of `s` stand, or all other entries. */
  function Places(g: Graph, s: seq<Id>, fill: bool): (p: seq<nat>)
    ensures Increasing(p) && forall k :: 0 <= k < |p| ==> p[k] < |s|
    ensures forall i: nat :: i in p <==> i < |s| && IsFill(g, s[i]) == fill
  {
    if s == [] then [] else
    Places(g, s[..|s| - 1], fill) + if IsFill(g, s[|s| - 1]) == fill then [|s| - 1] else []
  }

  lemma PickStep(g: Graph, s: seq<Id>, fill: bool)
    ensures Pick(g, s, fill) ==
            if s == [] then [] else
            Pick(g, s[..|s| - 1], fill) + if IsFill(g, s[|s| - 1]) == fill then [s[|s| - 1]] else []
  {
    hide IsFill;
  }

  lemma {:induction false} PickPlaces(g: Graph, s: seq<Id>, fill: bool)
    ensures var p := Places(g, s, fill);
            |Pick(g, s, fill)| == |p| && forall k :: 0 <= k < |p| ==> Pick(g, s, fill)[k] == s[p[k]]
    decreases |s|
  {
    hide IsFill, Pick, Increasing;
    PickStep(g, s, fill);
    if s == [] {
    } else {
      var init, last := s[..|s| - 1], |s| - 1;
      PickPlaces(g, init, fill);
      var p, q := Places(g, init, fill), Places(g, s, fill);
      assert q == p + if IsFill(g, s[last]) == fill then [last] else [];
      assert forall k :: 0 <= k < |p| ==> init[p[k]] == s[p[k]];
    }
  }

  /** A suspended tail is stored as its fill-ups followed by its other entries: every entry once,
      and inside each of the two groups in the old order. */
  lemma SuspensionStable(g: Graph, tail: seq<Id>)
    ensures var stored, fills, others := Suspension(g, tail), Places(g, tail, true), Places(g, tail, false);
            && |stored| == |fills| + |others| == |tail|
            && (forall k :: 0 <= k < |fills| ==> stored[k] == tail[fills[k]])
            && (forall k :: 0 <= k < |others| ==> stored[|fills| + k] == tail[others[k]])
            && Increasing(fills) && Increasing(others)
            && forall i :: 0 <= i < |tail| ==>
                (i in fills <==> IsFill(g, tail[i])) && (i in others <==> !IsFill(g, tail[i]))
  {
    hide IsFill, Pick, Places;
    PickPlaces(g, tail, true);
    PickPlaces(g, tail, false);
    SuspensionLength(g, tail);
  }

  lemma SuspensionLength(g: Graph, tail: seq<Id>)
    ensures |Suspension(g, tail)| == |tail|
  {
    hide Suspension;
    SuspensionPermutes(g, tail);
    assert |multiset(Suspension(g, tail))| == |multiset(tail)|;
  }

  ghost predicate AllFill(g: Graph, tail: seq<Id>) {
    forall k :: 0 <= k < |tail| ==> IsFill(g, tail[k])
  }

  lemma {:induction false} PickAll(g: Graph, s: seq<Id>, fill: bool)
    requires forall k :: 0 <= k < |s| ==> IsFill(g, s[k]) == fill
    ensures Pick(g, s, fill) == s && Pick(g, s, !fill) == []
    decreases |s|
  {
    hide IsFill, Pick;
    PickStep(g, s, fill);
    PickStep(g, s, !fill);
    if s == [] {
    } else {
      var init, last := s[..|s| - 1], s[|s| - 1];
      assert IsFill(g, last) == fill;
      PickAll(g, init, fill);
      assert s == init + [last];
    }
  }

  // ---------- which positions a run touches

  ghost predicate SameFrom(o: Oracle, o': Oracle, first: nat) {
    forall r: nat, i: nat, x: Id {:trigger o.chooses(r, i, x)} :: i >= first ==>
      o.fails(r, i) == o'.fails(r, i) && o.ends(r, i) == o'.ends(r, i) && o.chooses(r, i, x) == o'.chooses(r, i, x)
  }

  lemma SameAt(o: Oracle, o': Oracle, first: nat, r: nat, i: nat, x: Id)
    requires SameFrom(o, o', first) && i >= first
    ensures o.fails(r, i) == o'.fails(r, i) && o.ends(r, i) == o'.ends(r, i)
        && o.chooses(r, i, x) == o'.chooses(r, i, x)
  {
    assert o.chooses(r, i, x) == o'.chooses(r, i, x);
  }

  lemma {:induction false} SettledSame(g: Graph, path: seq<Id>, lo: nat, hi: nat, o: Oracle, o': Oracle, round: nat)
    requires GraphOk(g) && lo <= hi <= |path| && forall i :: lo <= i < hi ==> path[i] in g
    requires SameFrom(o, o', lo)
    ensures Settled(g, path, lo, hi, o, round) == Settled(g, path, lo, hi, o', round)
    ensures Broken(g, path, lo, hi, o, round) == Broken(g, path, lo, hi, o', round)
    decreases hi
  {
    hide GraphOk, SettleOne, SameFrom, Unhandled, Broken, Settled;
    if lo == hi {
      SettledNone(g, path, lo, o, round);
      SettledNone(g, path, lo, o', round);
      BrokenNone(g, path, lo, o, round);
      BrokenNone(g, path, lo, o', round);
    } else {
      SettledSame(g, path, lo, hi - 1, o, o', round);
      SameAt(o, o', lo, round, hi - 1, path[hi - 1]);
      SettledStep(g, path, lo, hi, o, round);
      SettledStep(g, path, lo, hi, o', round);
      BrokenStep(g, path, lo, hi - 1, o, round);
      BrokenStep(g, path, lo, hi - 1, o', round);
    }
  }

  lemma SameLater(o: Oracle, o': Oracle, first: nat, later: nat)
    requires SameFrom(o, o', first) && first <= later
    ensures SameFrom(o, o', later)
  {
    forall r: nat, i: nat, x: Id | i >= later
      ensures o.fails(r, i) == o'.fails(r, i) && o.ends(r, i) == o'.ends(r, i)
          && o.chooses(r, i, x) == o'.chooses(r, i, x)
    {
      SameAt(o, o', first, r, i, x);
    }
  }

  lemma {:induction false} RunSame(g: Graph, path: seq<Id>, first: nat, idx: nat, o: Oracle, o': Oracle, round: nat,
                                   rounds: nat)
    requires GraphOk(g) && OracleOk(g, o) && OracleOk(g, o') && Entry(path, first, idx) && Trail(g, path, first, idx)
    requires round <= rounds && SameFrom(o, o', first)
    ensures RunFrom(g, path, first, idx, o, round, rounds) == RunFrom(g, path, first, idx, o', round, rounds)
    decreases rounds - round
  {
    hide GraphOk, OracleOk, Entry, Trail, Sift, Settled, Broken, FillAhead, RunFrom, SameFrom;
    if idx >= |path| || round == rounds {
      AtEnd(g, path, first, idx, o, round, rounds);
      AtEnd(g, path, first, idx, o', round, rounds);
    } else {
      RunStep(g, path, first, idx, o, round, rounds);
      RunStep(g, path, first, idx, o', round, rounds);
      var sifted := Sift(g, path[..idx], path[idx..]);
      var hi := |sifted|;
      EntryOrder(path, first, idx);
      SameLater(o, o', first, idx);
      SettledSame(g, sifted, idx, hi, o, o', round);
      var after := Settled(g, sifted, idx, hi, o, round);
      RunSame(g, after, first, hi, o, o', round + 1, rounds);
    }
  }

  lemma EntryOrder(path: seq<Id>, first: nat, idx: nat)
    requires Entry(path, first, idx)
    ensures first <= idx <= |path|
  {
  }

  lemma AtEnd(g: Graph, path: seq<Id>, first: nat, idx: nat, o: Oracle, round: nat, rounds: nat)
    requires GraphOk(g) && OracleOk(g, o) && Entry(path, first, idx) && Trail(g, path, first, idx) && round <= rounds
    requires idx >= |path| || round == rounds
    ensures RunFrom(g, path, first, idx, o, round, rounds)
            == Outcome(if idx < |path| then Running else Finished, path, idx, idx)
  {
    hide GraphOk, OracleOk, Trail;
    RunEnd(g, path, first, idx, o, round, rounds);
  }

  lemma RunEntered(g: Graph, path: seq<Id>, o: Oracle, rounds: nat)
    requires GraphOk(g) && OracleOk(g, o) && Known(g, path)
    ensures var e := Entered(path); var first := |e| - 1;
            && e[first] in g && (e[first] == "begin" || FillId(e[first]))
            && Entry(e, first, first) && Trail(g, e, first, first)
            && RunOf(g, path, o, rounds) == RunFrom(g, e, first, first, o, 0, rounds)
  {
    hide GraphOk, OracleOk, Entry, Trail, RunFrom, FillId;
    KnownEntry(g, path);
    StartTrail(g, Entered(path));
  }

  /** Entries before the one a run enters at are never invoked: whatever they would do there, the
      run is the same. */
  lemma BelowEntryUnseen(g: Graph, path: seq<Id>, o: Oracle, o': Oracle, rounds: nat)
    requires GraphOk(g) && OracleOk(g, o) && OracleOk(g, o') && Known(g, path)
    requires SameFrom(o, o', |Entered(path)| - 1)
    ensures RunOf(g, path, o, rounds) == RunOf(g, path, o', rounds)
  {
    hide GraphOk, OracleOk, Entry, Trail, RunFrom, SameFrom, FillId, RunOf;
    var entered := Entered(path);
    RunEntered(g, path, o, rounds);
    RunEntered(g, path, o', rounds);
    RunSame(g, entered, |entered| - 1, |entered| - 1, o, o', 0, rounds);
  }

  /** What has been executed is final: it stays in front of whatever path the run ends with. */
  lemma {:induction false} RunKeeps(g: Graph, path: seq<Id>, first: nat, idx: nat, o: Oracle, round: nat, rounds: nat)
    requires GraphOk(g) && OracleOk(g, o) && Entry(path, first, idx) && Trail(g, path, first, idx) && round <= rounds
    ensures idx <= |path| && path[..idx] <= RunFrom(g, path, first, idx, o, round, rounds).trail
    ensures idx <= RunFrom(g, path, first, idx, o, round, rounds).ran
    decreases rounds - round
  {
    hide GraphOk, OracleOk, Entry, Trail, Sift, Settled, Broken, FillAhead, RunFrom;
    EntryOrder(path, first, idx);
    if idx >= |path| || round == rounds {
      AtEnd(g, path, first, idx, o, round, rounds);
    } else {
      RunStep(g, path, first, idx, o, round, rounds);
      RoundTrail(g, path, first, idx, o, round);
      var sifted := Sift(g, path[..idx], path[idx..]);
      var after := Settled(g, sifted, idx, |sifted|, o, round);
      RunKeeps(g, after, first, |sifted|, o, round + 1, rounds);
    }
  }

  /** From position `lo` on, apart from the entry at `first`, no fill-up. */
  ghost predicate NoFill(g: Graph, path: seq<Id>, first: nat, lo: nat) {
    forall k :: lo <= k < |path| && k > first ==> !IsFill(g, path[k])
  }

  lemma {:induction false} FillsWaitFrom(g: Graph, path: seq<Id>, first: nat, idx: nat, o: Oracle, round: nat,
                                         rounds: nat)
    requires GraphOk(g) && OracleOk(g, o) && Entry(path, first, idx) && Trail(g, path, first, idx) && round <= rounds
    requires NoFill(g, path, first, first)
    ensures var out := RunFrom(g, path, first, idx, o, round, rounds);
            && out.done <= |out.trail| && NoFill(g, out.trail[..out.done], first, first)
            && (out.status != Suspended ==> NoFill(g, out.trail, first, first))
            && (out.status == Suspended ==> exists k :: out.done <= k < |out.trail| && IsFill(g, out.trail[k]))
    decreases rounds - round
  {
    hide GraphOk, OracleOk, Entry, Trail, Sift, Settled, Broken, RunFrom, IsFill;
    EntryOrder(path, first, idx);
    if idx >= |path| || round == rounds {
      AtEnd(g, path, first, idx, o, round, rounds);
    } else {
      RunStep(g, path, first, idx, o, round, rounds);
      RoundTrail(g, path, first, idx, o, round);
      var sifted := Sift(g, path[..idx], path[idx..]);
      var hi := |sifted|;
      var after := Settled(g, sifted, idx, hi, o, round);
      SiftedFill(g, path, first, idx);
      if !Broken(g, sifted, idx, hi, o, round) {
        assert NoFill(g, after[..hi], first, first) by { assert sifted == after[..hi]; }
        if !FillAhead(g, after, hi) {
          assert NoFill(g, after, first, first) by {
            forall k | first <= k < |after| && k > first ensures !IsFill(g, after[k]) {
              if k < hi { assert after[..hi][k] == after[k]; }
            }
          }
          FillsWaitFrom(g, after, first, hi, o, round + 1, rounds);
        }
      }
    }
  }

  /** A fill-up is never executed in the run that reaches it: a run is suspended exactly when one
      waits, and only the entry that it starts with may be one. */
  lemma FillsWait(g: Graph, path: seq<Id>, o: Oracle, rounds: nat)
    requires GraphOk(g) && OracleOk(g, o) && Known(g, path)
    ensures var first, out := |Entered(path)| - 1, RunOf(g, path, o, rounds);
            && out.done <= |out.trail| && NoFill(g, out.trail[..out.done], first, first)
            && (out.status != Suspended ==> NoFill(g, out.trail, first, first))
            && (out.status == Suspended ==> exists k :: out.done <= k < |out.trail| && IsFill(g, out.trail[k]))
  {
    hide GraphOk, OracleOk, Entry, Trail, RunFrom, FillId, RunOf, IsFill;
    var entered := Entered(path);
    RunEntered(g, path, o, rounds);
    FillsWaitFrom(g, entered, |entered| - 1, |entered| - 1, o, 0, rounds);
  }

  lemma SiftedFill(g: Graph, path: seq<Id>, first: nat, idx: nat)
    requires Entry(path, first, idx) && idx < |path| && forall k :: 0 <= k < |path[idx..]| ==> path[idx..][k] in g
    requires NoFill(g, path, first, first)
    ensures NoFill(g, Sift(g, path[..idx], path[idx..]), first, first)
  {
    hide Sift, IsFill;
    var before, batch := path[..idx], path[idx..];
    SiftFeeds(g, before, batch);
    var sifted := Sift(g, before, batch);
    forall k | first <= k < |sifted| && k > first ensures !IsFill(g, sifted[k]) {
      if k < idx {
        assert sifted[k] == before[k] == path[k];
      } else {
        var m :| 0 <= m < |batch| && batch[m] == sifted[k];
        assert path[idx + m] == sifted[k];
        assert idx == first ==> |batch| == 1 && |sifted| <= first + 1;
      }
    }
  }

  // ---------- where a suspended run is taken up

  /** Fill-ups are recognised by their ids, as the ids the canvas editor gives out are. */
  ghost predicate FillsNamed(g: Graph) {
    forall x {:trigger InGraph(g, x)} :: InGraph(g, x) ==> (FillId(x) <==> g[x].kind == FillUp)
  }

  /** The entry a run starts with is executed where it stands if its inputs lie before it; else it is
      dropped, and the run ends without having executed anything. */
  lemma EntryRuns(g: Graph, path: seq<Id>, first: nat, o: Oracle, rounds: nat)
    requires GraphOk(g) && OracleOk(g, o) && Entry(path, first, first) && Trail(g, path, first, first)
    requires |path| == first + 1 && path[first] in g
    ensures var out := RunFrom(g, path, first, first, o, 0, rounds);
            && path[..first] <= out.trail && first <= out.ran
            && (rounds > 0 ==> (first < out.ran <==> Ready(g, path[..first], path[first])))
            && (rounds == 0 || Ready(g, path[..first], path[first]) ==> path <= out.trail)
  {
    hide GraphOk, OracleOk, Entry, Trail, Sift, Settled, Broken, FillAhead, RunFrom, FillId, Ready;
    if rounds == 0 {
      AtEnd(g, path, first, first, o, 0, rounds);
    } else {
      RunStep(g, path, first, first, o, 0, rounds);
      var before, batch := path[..first], path[first..];
      assert batch == [path[first]] && batch[1..] == [] && before + [path[first]] == path;
      SiftStep(g, before, batch);
      SiftNone(g, path);
      SiftNone(g, before);
      var sifted := Sift(g, before, batch);
      var after := Settled(g, sifted, first, |sifted|, o, 0);
      if Ready(g, before, path[first]) {
        assert sifted == path;
        RunKeeps(g, after, first, |sifted|, o, 1, rounds);
        assert after[..|sifted|] == path;
      } else {
        assert sifted == before;
        SettledNone(g, before, first, o, 0);
        BrokenNone(g, before, first, o, 0);
        NoneAhead(g, before, first);
        AtEnd(g, before, first, first, o, 1, rounds);
      }
    }
  }

  lemma NoneAhead(g: Graph, path: seq<Id>, idx: nat)
    requires idx == |path|
    ensures !FillAhead(g, path, idx)
  {
  }

  /** Where the next run takes up a stored path: at its last entry exactly if that is a fill-up by
      its id, and otherwise at an appended "begin", which is then executed. */
  lemma ResumeById(g: Graph, stored: seq<Id>, o: Oracle, rounds: nat)
    requires GraphOk(g) && OracleOk(g, o) && Known(g, stored) && stored != []
    ensures var first, out, last := |Entered(stored)| - 1, RunOf(g, stored, o, rounds), stored[|stored| - 1];
            && (first == |stored| - 1 <==> FillId(last)) && (first == |stored| <==> !FillId(last))
            && first <= |stored| && stored[..first] <= out.trail && first <= out.ran
            && (!FillId(last) ==>
                  first < |out.trail| && out.trail[first] == "begin" && (rounds > 0 ==> first < out.ran))
  {
    hide OracleOk, RunFrom, FillId, Entry, Trail, RunOf;
    var entered := Entered(stored);
    RunEntered(g, stored, o, rounds);
    var first := |entered| - 1;
    EntryRuns(g, entered, first, o, rounds);
    assert entered[..first] == stored[..first];
  }

  /** The stored entry at `k` is executed where it stands. */
  ghost predicate InPlace(g: Graph, stored: seq<Id>, o: Oracle, rounds: nat, k: nat)
    requires GraphOk(g) && OracleOk(g, o) && Known(g, stored) && k < |stored|
  {
    var out := RunOf(g, stored, o, rounds);
    |Entered(stored)| - 1 <= k < out.ran && k < |out.trail| && out.trail[k] == stored[k]
  }

  /** Of any stored path at most the last entry is executed where it stands: exactly if its id is
      that of a fill-up and its inputs lie before it. */
  lemma InPlaceExactly(g: Graph, stored: seq<Id>, o: Oracle, rounds: nat, k: nat)
    requires GraphOk(g) && OracleOk(g, o) && Known(g, stored) && rounds > 0 && k < |stored|
    ensures InPlace(g, stored, o, rounds, k) <==>
            k == |stored| - 1 && FillId(stored[k]) && Ready(g, stored[..k], stored[k])
  {
    hide GraphOk, OracleOk, RunFrom, FillId, Entry, Trail, RunOf, Ready;
    var entered := Entered(stored);
    RunEntered(g, stored, o, rounds);
    EntryRuns(g, entered, |entered| - 1, o, rounds);
  }

  lemma LastStored(g: Graph, tail: seq<Id>)
    requires exists k :: 0 <= k < |tail| && IsFill(g, tail[k])
    requires FillsNamed(g) && Known(g, tail)
    ensures var stored := Suspension(g, tail);
            && |stored| == |tail| > 0 && Known(g, stored)
            && (FillId(stored[|tail| - 1]) <==> AllFill(g, tail)) && (AllFill(g, tail) ==> stored == tail)
  {
    hide FillId;
    SuspensionStable(g, tail);
    var stored, others := Suspension(g, tail), Places(g, tail, false);
    forall k | 0 <= k < |stored| ensures stored[k] in g {
      assert stored[k] in multiset(stored);
      SuspensionPermutes(g, tail);
    }
    assert InGraph(g, stored[|tail| - 1]);
    if AllFill(g, tail) {
      PickAll(g, tail, true);
    } else {
      var i :| 0 <= i < |tail| && !IsFill(g, tail[i]);
      assert i in others;
      var last := others[|others| - 1];
      assert stored[|tail| - 1] == tail[last] && last in others && !IsFill(g, tail[last]);
    }
  }

  /** Where fill-ups are recognised by their ids: if only fill-ups waited, the next run enters at the
      last of them. Otherwise "begin" is appended, and the run starts over from there. */
  lemma ResumeEntry(g: Graph, tail: seq<Id>, o: Oracle, rounds: nat)
    requires GraphOk(g) && OracleOk(g, o) && FillsNamed(g) && Known(g, tail)
    requires exists k :: 0 <= k < |tail| && IsFill(g, tail[k])
    ensures Known(g, Suspension(g, tail))
    ensures var stored := Suspension(g, tail);
            var first, out := |Entered(stored)| - 1, RunOf(g, stored, o, rounds);
            && first < |out.trail| && stored[..if first < |stored| then first else |stored|] <= out.trail
            && (rounds > 0 ==> first < out.ran)
            && if AllFill(g, tail) then stored == tail && first == |tail| - 1 && out.trail[first] == tail[first]
               else first == |tail| && out.trail[first] == "begin"
  {
    hide GraphOk, OracleOk, RunFrom, FillId, Entry, Trail, FillsNamed, AllFill, Suspension, RunOf, Exempt, IsFill,
         Ready;
    LastStored(g, tail);
    var stored := Suspension(g, tail);
    var entered := Entered(stored);
    ResumeById(g, stored, o, rounds);
    RunEntered(g, stored, o, rounds);
    EntryExempt(g, entered[..|entered| - 1], entered[|entered| - 1]);
    EntryRuns(g, entered, |entered| - 1, o, rounds);
  }

  lemma EntryExempt(g: Graph, before: seq<Id>, x: Id)
    requires GraphOk(g) && FillsNamed(g) && x in g && (x == "begin" || FillId(x))
    ensures Ready(g, before, x)
  {
    hide FillId;
    assert InGraph(g, x);
  }

  /** There a stored entry is executed where it stands only if nothing but fill-ups waited, and then
      it is the last of them. */
  lemma ResumeInPlace(g: Graph, tail: seq<Id>, o: Oracle, rounds: nat, k: nat)
    requires GraphOk(g) && OracleOk(g, o) && FillsNamed(g) && Known(g, tail) && rounds > 0
    requires (exists k :: 0 <= k < |tail| && IsFill(g, tail[k])) && k < |tail|
    ensures Known(g, Suspension(g, tail)) && k < |Suspension(g, tail)|
    ensures InPlace(g, Suspension(g, tail), o, rounds, k) <==> AllFill(g, tail) && k == |tail| - 1
  {
    hide GraphOk, OracleOk, RunOf, FillId, FillsNamed, IsFill, AllFill, Suspension, Ready, InPlace;
    LastStored(g, tail);
    var stored := Suspension(g, tail);
    InPlaceExactly(g, stored, o, rounds, k);
    if FillId(stored[k]) { EntryExempt(g, stored[..k], stored[k]); }
  }

  /** So everything that waited is executed where it waited exactly when one fill-up waited. */
  lemma ResumeComplete(g: Graph, tail: seq<Id>, o: Oracle, rounds: nat)
    requires GraphOk(g) && OracleOk(g, o) && FillsNamed(g) && Known(g, tail) && rounds > 0
    requires exists k :: 0 <= k < |tail| && IsFill(g, tail[k])
    ensures Known(g, Suspension(g, tail)) && |Suspension(g, tail)| == |tail|
    ensures (forall k: nat :: k < |tail| ==> InPlace(g, Suspension(g, tail), o, rounds, k)) <==> |tail| == 1
  {
    hide GraphOk, OracleOk, FillsNamed, IsFill, InPlace, Known, Suspension;
    SuspensionLength(g, tail);
    forall k: nat | k < |tail|
      ensures Known(g, Suspension(g, tail))
      ensures InPlace(g, Suspension(g, tail), o, rounds, k) <==> AllFill(g, tail) && k == |tail| - 1
    {
      ResumeInPlace(g, tail, o, rounds, k);
    }
    ResumeInPlace(g, tail, o, rounds, 0);
  }

  /** A fill-up that waits with another component: the next run is entered at neither of them. */
  lemma ResumeRestarts(g: Graph)
    requires IsFill(g, "userfillup:1") && "x" in g && g["x"].kind == Plain
    ensures Entered(Suspension(g, ["userfillup:1", "x"])) == ["userfillup:1", "x", "begin"]
  {
    var tail := ["userfillup:1", "x"];
    assert tail == ["userfillup:1"] + ["x"] && tail[..1] == ["userfillup:1"] && tail[..1][..0] == [];
    assert Pick(g, tail[..1], true) == ["userfillup:1"] && Pick(g, tail[..1], false) == [];
    assert Suspension(g, tail) == ["userfillup:1", "x"];
    assert |Fold("x")| == 1;
    assert !FillId("x");
  }

  // ---------- when a run has to end

  /** Control always moves to a lower rank, as it can be arranged on every graph without a way
      back. */
  ghost predicate Falling(g: Graph, rank: Id -> nat) {
    forall a, b {:trigger Follows(g, a, b)} :: Follows(g, a, b) ==> rank(b) < rank(a)
  }

  /** Everything still to be executed has come down one rank a round. */
  ghost predicate Fallen(path: seq<Id>, idx: nat, round: nat, rank: Id -> nat, top: nat) {
    forall k :: idx <= k < |path| ==> rank(path[k]) + round <= top
  }

  lemma FallenRound(path: seq<Id>, idx: nat, round: nat, rank: Id -> nat, top: nat)
    requires Fallen(path, idx, round, rank, top) && idx < |path|
    ensures round <= top
  {
    assert rank(path[idx]) + round <= top;
  }

  lemma RoundFalls(g: Graph, path: seq<Id>, first: nat, idx: nat, o: Oracle, round: nat, rank: Id -> nat, top: nat)
    requires GraphOk(g) && OracleOk(g, o) && Entry(path, first, idx) && Trail(g, path, first, idx) && idx < |path|
    requires Falling(g, rank) && Fallen(path, idx, round, rank, top)
    ensures forall k :: 0 <= k < |path[idx..]| ==> path[idx..][k] in g
    ensures var sifted := Sift(g, path[..idx], path[idx..]);
            idx <= |sifted| && (forall i :: idx <= i < |sifted| ==> sifted[i] in g)
            && Fallen(Settled(g, sifted, idx, |sifted|, o, round), |sifted|, round + 1, rank, top)
  {
    hide GraphOk, OracleOk, Entry, Trail, Sift, Settled, Follows;
    RoundTrail(g, path, first, idx, o, round);
    EntryOrder(path, first, idx);
    var sifted := Sift(g, path[..idx], path[idx..]);
    var after := Settled(g, sifted, idx, |sifted|, o, round);
    SiftFeeds(g, path[..idx], path[idx..]);
    forall j | |sifted| <= j < |after| ensures rank(after[j]) + round + 1 <= top {
      SettledFollows(g, sifted, idx, |sifted|, o, round, j);
      var i :| idx <= i < |sifted| && Follows(g, sifted[i], after[j]);
      assert sifted[i] in path[idx..];
    }
  }

  lemma {:induction false} RunFalls(g: Graph, path: seq<Id>, first: nat, idx: nat, o: Oracle, round: nat, rounds: nat,
                                    rank: Id -> nat, top: nat)
    requires GraphOk(g) && OracleOk(g, o) && Entry(path, first, idx) && Trail(g, path, first, idx) && round <= rounds
    requires Falling(g, rank) && Fallen(path, idx, round, rank, top) && top < rounds
    ensures RunFrom(g, path, first, idx, o, round, rounds).status != Running
    decreases rounds - round
  {
    hide GraphOk, OracleOk, Entry, Trail, Sift, Settled, Broken, FillAhead, RunFrom, Falling;
    if idx >= |path| {
      AtEnd(g, path, first, idx, o, round, rounds);
    } else {
      FallenRound(path, idx, round, rank, top);
      RunStep(g, path, first, idx, o, round, rounds);
      RoundFalls(g, path, first, idx, o, round, rank, top);
      var sifted := Sift(g, path[..idx], path[idx..]);
      var after := Settled(g, sifted, idx, |sifted|, o, round);
      RunFalls(g, after, first, |sifted|, o, round + 1, rounds, rank, top);
    }
  }

  /** Without a way back in the control graph a run ends: after at most one batch more than the
      rank of the entry it starts with, it has finished, failed or been suspended. */
  lemma RunEnds(g: Graph, path: seq<Id>, o: Oracle, rounds: nat, rank: Id -> nat)
    requires GraphOk(g) && OracleOk(g, o) && Known(g, path) && Falling(g, rank)
    requires var e := Entered(path); rounds > rank(e[|e| - 1])
    ensures RunOf(g, path, o, rounds).status in {Finished, Failed, Suspended}
  {
    hide GraphOk, OracleOk, Entry, Trail, RunFrom, Falling, FillId, RunOf;
    var entered := Entered(path);
    RunEntered(g, path, o, rounds);
    RunFalls(g, entered, |entered| - 1, |entered| - 1, o, 0, rounds, rank, rank(entered[|entered| - 1]));
  }
}
