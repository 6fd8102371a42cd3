/** What both tree builders share: layer intervals over the growing chunk list, and the
    summariser that skips failed clusters until too many have failed. */
module RaptorLayers {

  datatype Interval = Interval(start: nat, end: nat)

  /** The intervals lie end to end: the original `n` chunks first, then non-empty summary
      layers up to position `total`. */
  ghost predicate Tiles(layers: seq<Interval>, n: nat, total: nat) {
    if |layers| <= 1 then layers == [Interval(0, n)] && total == n
    else
      var last := layers[|layers| - 1];
      last.start < last.end == total && Tiles(layers[..|layers| - 1], n, last.start)
  }

  lemma TilesSnoc(layers: seq<Interval>, n: nat, total: nat, total': nat)
    requires Tiles(layers, n, total) && total < total'
    ensures Tiles(layers + [Interval(total, total')], n, total')
  {
    assert (layers + [Interval(total, total')])[..|layers|] == layers;
  }

  /** Every position of the chunk list lies in exactly one layer, and layers come in order. */
  lemma {:induction false} TilesCover(layers: seq<Interval>, n: nat, total: nat, p: nat)
    requires Tiles(layers, n, total)
    ensures p < total <==> exists k :: 0 <= k < |layers| && layers[k].start <= p < layers[k].end
    ensures forall j, k :: 0 <= j < k < |layers| ==> layers[j].end <= layers[k].start
    ensures forall k :: 0 <= k < |layers| ==> layers[k].end <= total
    decreases |layers|
  {
    var m := |layers| - 1;
    if m == 0 {
      assert layers[0] == Interval(0, n);
    } else {
      var shorter := layers[..m];
      TilesCover(shorter, n, layers[m].start, p);
      assert forall k :: 0 <= k < m ==> shorter[k] == layers[k];
      if layers[m].start <= p < total { assert layers[m].start <= p < layers[m].end; }
      if p < layers[m].start {
        var k :| 0 <= k < |shorter| && shorter[k].start <= p < shorter[k].end;
        assert layers[k].start <= p < layers[k].end;
      }
      forall j, k | 0 <= j < k < |layers| ensures layers[j].end <= layers[k].start {
        assert layers[j] == shorter[j];
        if k < m { assert layers[k] == shorter[k]; }
      }
    }
  }

  /** What the model answers for one cluster: a summary, or an error. */
  datatype Answer = Good(text: string) | Bad

  /** What the summariser makes of it: a summary, a skipped cluster, or an aborted run. */
  datatype Outcome = Done(text: string) | Skipped | Aborted

  class Summarizer {
    const maxErrors: nat
    var errorCount: nat

    constructor (maxErrors: int)
      ensures this.maxErrors == if maxErrors < 1 then 1 else maxErrors
      ensures errorCount == 0
    {
      this.maxErrors := if maxErrors < 1 then 1 else maxErrors;
      errorCount := 0;
    }

    /** Errors are counted; the one that reaches the limit aborts the run. */
    method Summarize(answer: Answer) returns (r: Outcome)
      modifies this
      ensures errorCount == old(errorCount) + if answer.Bad? then 1 else 0
      ensures r == match answer
                   case Good(text) => Done(text)
                   case Bad => if errorCount >= maxErrors then Aborted else Skipped
    {
      match answer {
        case Good(text) => r := Done(text);
        case Bad =>
          errorCount := errorCount + 1;
          r := if errorCount >= maxErrors then Aborted else Skipped;
      }
    }
  }
}
