/** The parameter sweep: executor `_optimize` and merge `aggregate_optimize`. */
module Optimize {
  import opened Base
  import opened Partition
  import opened Jobkit

  datatype OptimizeOut = OptimizeOut(
    bestScore: Score, bestParams: seq<real>, bestIndex: int, evaluated: int, yielded: bool)

  function ScoreOf(w: World, cfg: Sweep, i: int): real {
    (w.objective)((w.config)(cfg, i))
  }

  const NOTHING := OptimizeOut(NegInf, [], -1, 0, false)

  /** One machine scoring candidates [start, end) in order. */
  function OptimizeOver(w: World, cfg: Sweep, start: int, end: int): OptimizeOut
    decreases end - start
  {
    if end <= start then NOTHING
    else
      var before := OptimizeOver(w, cfg, start, end - 1);
      var i := end - 1;
      var score := Fin(ScoreOf(w, cfg, i));
      if before.bestScore.Less(score)
      then OptimizeOut(score, (w.config)(cfg, i), i, before.evaluated + 1, false)
      else before.(evaluated := before.evaluated + 1)
  }

  /** `i` is the lowest index of [start, end) whose score no other candidate exceeds. */
  ghost predicate LowestArgmax(w: World, cfg: Sweep, start: int, end: int, i: int) {
    && start <= i < end
    && (forall j :: start <= j < end ==> ScoreOf(w, cfg, j) <= ScoreOf(w, cfg, i))
    && (forall j :: start <= j < i ==> ScoreOf(w, cfg, j) < ScoreOf(w, cfg, i))
  }

  /** The executor finds the lowest-index argmax of its slice. */
  lemma {:induction false} OptimizeFindsLowestArgmax(w: World, cfg: Sweep, start: int, end: int)
    ensures var out := OptimizeOver(w, cfg, start, end);
            && out.evaluated == Max(0, end - start)
            && !out.yielded
            && (end <= start ==> out == NOTHING)
            && (start < end ==>
                  && LowestArgmax(w, cfg, start, end, out.bestIndex)
                  && out.bestScore == Fin(ScoreOf(w, cfg, out.bestIndex)) == Fin((w.objective)(out.bestParams))
                  && out.bestParams == (w.config)(cfg, out.bestIndex))
    decreases end - start
  {
    if start < end {
      OptimizeFindsLowestArgmax(w, cfg, start, end - 1);
    }
  }

  /** The chunked executor: complete, or the honest result of the prefix done before the first yield. */
  method RunOptimize(w: World, cfg: Sweep, start: int, end: int, shouldYield: YieldFn)
    returns (out: OptimizeOut)
    ensures 0 <= out.evaluated <= Max(0, end - start)
    ensures out.(yielded := false) == OptimizeOver(w, cfg, start, start + out.evaluated)
    ensures !out.yielded ==> out.evaluated == Max(0, end - start)
    ensures out.yielded ==> shouldYield(out.evaluated)
    ensures forall k: nat :: k < out.evaluated ==> !shouldYield(k)
  {
    var bestScore, bestParams, bestIndex, evaluated := NegInf, [], -1, 0;
    var i := start;
    while i < end
      invariant evaluated == i - start && start <= i <= Max(start, end)
      invariant OptimizeOut(bestScore, bestParams, bestIndex, evaluated, false) == OptimizeOver(w, cfg, start, i)
      invariant forall k: nat :: k < evaluated ==> !shouldYield(k)
    {
      if shouldYield(evaluated) {
        return OptimizeOut(bestScore, bestParams, bestIndex, evaluated, true);
      }
      var params := (w.config)(cfg, i);
      var score := (w.objective)(params);
      evaluated := evaluated + 1;
      if bestScore.Less(Fin(score)) {
        bestScore, bestParams, bestIndex := Fin(score), params, i;
      }
      i := i + 1;
    }
    return OptimizeOut(bestScore, bestParams, bestIndex, evaluated, false);
  }

  function Evaluated(results: seq<OptimizeOut>): seq<int> {
    seq(|results|, i requires 0 <= i < |results| => results[i].evaluated)
  }

  /** No usable tile beats `best`: a higher score, or the same score at a lower index. */
  ghost predicate Unbeaten(results: seq<OptimizeOut>, best: OptimizeOut) {
    forall q :: q in results && q.bestIndex >= 0 ==>
      && !best.bestScore.Less(q.bestScore)
      && (q.bestScore == best.bestScore ==> best.bestIndex <= q.bestIndex)
  }

  /** What the merge promises of any list of tile results. */
  ghost predicate FleetBest(results: seq<OptimizeOut>, agg: OptimizeOut) {
    && agg.evaluated == Sum(Evaluated(results))
    && !agg.yielded
    && if forall q :: q in results ==> q.bestIndex < 0 then
         agg.(evaluated := 0) == NOTHING
       else
         exists r :: r in results && r.bestIndex >= 0 && Unbeaten(results, r)
                     && agg == r.(evaluated := agg.evaluated, yielded := false)
  }

  method AggregateOptimize(results: seq<OptimizeOut>) returns (agg: OptimizeOut)
    ensures FleetBest(results, agg)
  {
    var best: Option<OptimizeOut> := None;
    var total := 0;
    for k := 0 to |results|
      invariant total == Sum(Evaluated(results)[..k])
      invariant best.None? ==> forall q :: q in results[..k] ==> q.bestIndex < 0
      invariant best.Some? ==>
                  && best.value in results[..k] && best.value.bestIndex >= 0
                  && Unbeaten(results[..k], best.value)
    {
      var tile := results[k];
      SumPrefix(Evaluated(results), k);
      assert results[..k + 1] == results[..k] + [tile];
      total := total + tile.evaluated;
      if tile.bestIndex < 0 {
        continue;
      }
      if best.None? {
        best := Some(tile);
        continue;
      }
      var held := best.value;
      if held.bestScore.Less(tile.bestScore)
         || (tile.bestScore == held.bestScore && tile.bestIndex < held.bestIndex)
      {
        best := Some(tile);
      }
    }
    assert results[..|results|] == results;
    assert Evaluated(results)[..|results|] == Evaluated(results);
    match best {
      case None => agg := NOTHING.(evaluated := total);
      case Some(b) =>
        agg := OptimizeOut(b.bestScore, b.bestParams, b.bestIndex, total, false);
        assert agg == b.(evaluated := agg.evaluated, yielded := false);
    }
  }

  /** The tiles' results, in whatever order they finished, are the honest results of `ranges`. */
  ghost predicate HonestTiles(w: World, cfg: Sweep, ranges: seq<Range>, order: seq<nat>, outs: seq<OptimizeOut>) {
    && Permutation(order, |ranges|) && |outs| == |order|
    && forall i :: 0 <= i < |outs| ==>
         outs[i] == OptimizeOver(w, cfg, ranges[order[i]].start, ranges[order[i]].end)
  }

  /** The tile that owns the global winner reports exactly that winner. */
  lemma OwnerReportsWinner(w: World, cfg: Sweep, ranges: seq<Range>, total: int,
                           order: seq<nat>, outs: seq<OptimizeOut>, win: int) returns (i: nat)
    requires Covers(ranges, 0, total) && HonestTiles(w, cfg, ranges, order, outs)
    requires LowestArgmax(w, cfg, 0, total, win)
    ensures i < |outs| && outs[i].bestIndex == win && outs[i].bestScore == Fin(ScoreOf(w, cfg, win))
  {
    var k := ExactCover(ranges, 0, total, win);
    CoversBounds(ranges, 0, total);
    PermutationHits(order, |ranges|, k);
    i :| 0 <= i < |order| && order[i] == k;
    OptimizeFindsLowestArgmax(w, cfg, ranges[k].start, ranges[k].end);
  }

  /** Every honest tile reports a candidate of its own slice. */
  lemma TilesReportCandidates(w: World, cfg: Sweep, ranges: seq<Range>, total: int,
                              order: seq<nat>, outs: seq<OptimizeOut>)
    requires Covers(ranges, 0, total) && HonestTiles(w, cfg, ranges, order, outs)
    ensures Sum(Evaluated(outs)) == total
    ensures forall q :: q in outs && q.bestIndex >= 0 ==> Candidate(w, cfg, total, q)
    ensures total == 0 ==> forall q :: q in outs ==> q.bestIndex < 0
  {
    CoversBounds(ranges, 0, total);
    forall i | 0 <= i < |outs|
      ensures outs[i].evaluated == ranges[order[i]].Size()
      ensures outs[i].bestIndex >= 0 ==> Candidate(w, cfg, total, outs[i])
    {
      OptimizeFindsLowestArgmax(w, cfg, ranges[order[i]].start, ranges[order[i]].end);
    }
    SumInAnyOrder(ranges, 0, total, order, Evaluated(outs));
  }

  ghost predicate Candidate(w: World, cfg: Sweep, total: int, q: OptimizeOut) {
    && 0 <= q.bestIndex < total
    && q.bestScore == Fin(ScoreOf(w, cfg, q.bestIndex))
    && q.bestParams == (w.config)(cfg, q.bestIndex)
  }

  /** Distributed equals single-machine: any split, any completion order, same winner and same count. */
  lemma MergeOptimize(w: World, cfg: Sweep, ranges: seq<Range>, total: int,
                      order: seq<nat>, outs: seq<OptimizeOut>, agg: OptimizeOut)
    requires Covers(ranges, 0, total) && HonestTiles(w, cfg, ranges, order, outs)
    requires FleetBest(outs, agg)
    ensures agg == OptimizeOver(w, cfg, 0, total)
  {
    var whole := OptimizeOver(w, cfg, 0, total);
    OptimizeFindsLowestArgmax(w, cfg, 0, total);
    CoversBounds(ranges, 0, total);
    TilesReportCandidates(w, cfg, ranges, total, order, outs);
    if total > 0 {
      var i := OwnerReportsWinner(w, cfg, ranges, total, order, outs, whole.bestIndex);
      assert outs[i] in outs;
      var r :| r in outs && r.bestIndex >= 0 && Unbeaten(outs, r)
               && agg == r.(evaluated := agg.evaluated, yielded := false);
      WinnerIsUnbeaten(w, cfg, total, whole.bestIndex, outs[i], r);
    }
  }

  /** A candidate that the winner does not beat is the winner. */
  lemma WinnerIsUnbeaten(w: World, cfg: Sweep, total: int, win: int, q: OptimizeOut, r: OptimizeOut)
    requires LowestArgmax(w, cfg, 0, total, win) && Candidate(w, cfg, total, r)
    requires q.bestIndex == win && q.bestScore == Fin(ScoreOf(w, cfg, win))
    requires !r.bestScore.Less(q.bestScore) && (q.bestScore == r.bestScore ==> r.bestIndex <= q.bestIndex)
    ensures r.bestIndex == win
  {
  }
}
