/** The merged summary of a workload (`_aggregate_workload`), and what it is worth for a completed launch. */
module Summaries {
  import opened Base
  import opened Partition
  import opened Jobkit
  import opened Contracts
  import opened Launch
  import opened Protocol
  import opened Lease
  import opened Fleet
  import Optimize
  import Synth
  import HashCrack
  import MonteCarlo
  import Risk

  const SHOWN_ROWS := 500

  /** The default `var_levels`. */
  const LEVELS := [0.95, 0.99]

  datatype Summary =
    | OptimizeSummary(best: Optimize.OptimizeOut)
    | SynthSummary(count: nat, rows: seq<Record>)
    | HashSummary(answer: HashCrack.FleetHash)
    | RiskSummary(report: Option<Risk.Report>)  // None: no usable tile

  /** The outputs stored for the completed rows. */
  function CompletedOutputs(jobs: Jobs, rows: seq<JobId>): seq<Output> {
    if rows == [] then []
    else
      var id := rows[|rows| - 1];
      CompletedOutputs(jobs, rows[..|rows| - 1])
      + if id in jobs && jobs[id].state == Completed && jobs[id].result.Some? then [jobs[id].result.value] else []
  }

  /** The row counts: its job is completed, and this is its output. */
  ghost predicate Delivers(jobs: Jobs, id: JobId, output: Output) {
    id in jobs && jobs[id].state == Completed && jobs[id].result == Some(output)
  }

  /** The outputs are exactly those of the completed rows, in the order of the rows; `at` says where they come from. */
  ghost predicate Delivered(jobs: Jobs, rows: seq<JobId>, outputs: seq<Output>, at: seq<nat>) {
    && |at| == |outputs| && (forall i, k :: 0 <= i < k < |at| ==> at[i] < at[k])
    && (forall i :: 0 <= i < |at| ==> at[i] < |rows| && Delivers(jobs, rows[at[i]], outputs[i]))
    && (forall k, output :: 0 <= k < |rows| && Delivers(jobs, rows[k], output) ==> k in at)
  }

  lemma {:induction false} OnlyCompletedCount(jobs: Jobs, rows: seq<JobId>) returns (at: seq<nat>)
    ensures Delivered(jobs, rows, CompletedOutputs(jobs, rows), at)
  {
    if rows == [] {
      return [];
    }
    var n := |rows| - 1;
    var init := OnlyCompletedCount(jobs, rows[..n]);
    at := OneRowMore(jobs, rows[..n], rows[n], CompletedOutputs(jobs, rows[..n]), init);
    assert rows == rows[..n] + [rows[n]];
  }

  lemma OneRowMore(jobs: Jobs, rows: seq<JobId>, id: JobId, outputs: seq<Output>, at: seq<nat>) returns (more: seq<nat>)
    requires Delivered(jobs, rows, outputs, at)
    ensures var counts := id in jobs && jobs[id].state == Completed && jobs[id].result.Some?;
            Delivered(jobs, rows + [id], outputs + if counts then [jobs[id].result.value] else [], more)
  {
    if id in jobs && jobs[id].state == Completed && jobs[id].result.Some? {
      more := at + [|rows|];
      DeliveryCounts(jobs, rows, id, outputs, at, jobs[id].result.value);
    } else {
      more := at;
      assert outputs + [] == outputs;
      NoDelivery(jobs, rows, id, outputs, at);
    }
  }

  lemma DeliveryCounts(jobs: Jobs, rows: seq<JobId>, id: JobId, outputs: seq<Output>, at: seq<nat>, output: Output)
    requires Delivered(jobs, rows, outputs, at) && Delivers(jobs, id, output)
    ensures Delivered(jobs, rows + [id], outputs + [output], at + [|rows|])
  {
    var all, outs, more := rows + [id], outputs + [output], at + [|rows|];
    forall i | 0 <= i < |more|
      ensures more[i] < |all| && Delivers(jobs, all[more[i]], outs[i])
    {
      if i < |at| {
        assert all[at[i]] == rows[at[i]];
      }
    }
    forall k, o | 0 <= k < |all| && Delivers(jobs, all[k], o)
      ensures k in more
    {
      if k < |rows| {
        assert Delivers(jobs, rows[k], o) && k in at;
      } else {
        assert more[|at|] == k;
      }
    }
  }

  lemma NoDelivery(jobs: Jobs, rows: seq<JobId>, id: JobId, outputs: seq<Output>, at: seq<nat>)
    requires Delivered(jobs, rows, outputs, at) && forall o :: !Delivers(jobs, id, o)
    ensures Delivered(jobs, rows + [id], outputs, at)
  {
    var all := rows + [id];
    forall i | 0 <= i < |at|
      ensures at[i] < |all| && Delivers(jobs, all[at[i]], outputs[i])
    {
      assert all[at[i]] == rows[at[i]];
    }
    forall k, o | 0 <= k < |all| && Delivers(jobs, all[k], o)
      ensures k in at
    {
      assert k < |rows| ==> Delivers(jobs, rows[k], o);
    }
  }

  function Read<O>(outputs: seq<Output>, read: Output -> O): (outs: seq<O>)
    ensures |outs| == |outputs| && forall i :: 0 <= i < |outputs| ==> outs[i] == read(outputs[i])
  {
    seq(|outputs|, i requires 0 <= i < |outputs| => read(outputs[i]))
  }

  /** Kinds whose merge is not part of this model. */
  predicate Unmodelled(kind: string) {
    kind == "ai.eval" || kind == "ai.graph" || kind == "ai.infer" || kind == "ai.batch_infer"
  }

  /** The risk merge as a summary: an exception becomes None. */
  function OfReport(res: Result<Option<Risk.Report>>): Option<Summary> {
    match res case Ok(report) => Some(RiskSummary(report)) case Err(_) => None
  }

  /** The summary that the kind's merge promises; fractal is assembled by the dashboard instead. */
  ghost predicate IsSummary(kind: string, outputs: seq<Output>, root: MonteCarlo.Root, s: Option<Summary>) {
    if outputs == [] then s.None?
    else if kind == "montecarlo" then
      exists res :: Risk.RiskReport(Read(outputs, AsSimulated), root, LEVELS, res) && s == OfReport(res)
    else if kind == "optimize" then
      s.Some? && s.value.OptimizeSummary? && Optimize.FleetBest(Read(outputs, AsOptimize), s.value.best)
    else if kind == "ai.synth" then
      var merged := Synth.Concat(Synth.SortTiles(Read(outputs, AsSynth)));
      s == Some(SynthSummary(|merged|, merged[..Min(SHOWN_ROWS, |merged|)]))
    else if kind == "hashcrack" then
      s.Some? && s.value.HashSummary? && HashCrack.FleetAnswer(HashCrack.Present(Read(outputs, AsHash)), s.value.answer)
    else Unmodelled(kind) || s.None?
  }

  method AggregateWorkload(kind: string, outputs: seq<Output>, root: MonteCarlo.Root) returns (s: Option<Summary>)
    ensures IsSummary(kind, outputs, root, s)
  {
    if outputs == [] {
      return None;
    }
    if kind == "montecarlo" {
      var res := Risk.AggregateMontecarlo(Read(outputs, AsSimulated), root, LEVELS);
      return OfReport(res);
    }
    if kind == "hashcrack" {
      var answer := HashCrack.AggregateHashcrack(Read(outputs, AsHash));
      return Some(HashSummary(answer));
    }
    if kind == "optimize" {
      var best := Optimize.AggregateOptimize(Read(outputs, AsOptimize));
      return Some(OptimizeSummary(best));
    }
    if kind == "ai.synth" {
      var rows := Synth.MergeSynth(Read(outputs, AsSynth));
      return Some(SynthSummary(|rows|, rows[..Min(SHOWN_ROWS, |rows|)]));
    }
    return None;
  }

  lemma {:induction false} OutputsOfCompleted(db: Db, rows: seq<JobId>)
    requires forall i :: 0 <= i < |rows| ==>
               rows[i] in db.jobs && db.jobs[rows[i]].state == Completed && db.jobs[rows[i]].result.Some?
    ensures var outputs := CompletedOutputs(db.jobs, rows);
            |outputs| == |rows| && forall i :: 0 <= i < |rows| ==> outputs[i] == ResultOf(db, rows[i])
  {
    if rows != [] {
      OutputsOfCompleted(db, rows[..|rows| - 1]);
    }
  }

  /** The kind of the first row, by which the outputs are merged. */
  function KindOf(jobs: Jobs, rows: seq<JobId>): string {
    if rows != [] && rows[0] in jobs then jobs[rows[0]].manifest.kind else ""
  }

  /** The outputs of a completed launch, read for a merge, are those of its listed jobs. */
  lemma LaunchOutputs<O>(w: World, calls: seq<FineCall>, wid: string, load: Workload, ranges: seq<Range>,
                         ids: seq<JobId>, read: Output -> O)
    requires CompletedLaunch(w, calls, wid, load, ranges, ids) && load.Total() > 0
    ensures var db := FineFinal(EMPTY_DB, calls);
            && CompletedOutputs(db.jobs, ids) != [] && KindOf(db.jobs, ids) == load.Kind()
            && Read(CompletedOutputs(db.jobs, ids), read) == Outs(db, ids, read)
  {
    var db := FineFinal(EMPTY_DB, calls);
    var order := SpecsDone(calls, wid, load, ranges, ids);
    OutputsOfSpecs(db, load, ranges, order, ids, read);
  }

  lemma OutputsOfSpecs<O>(db: Db, load: Workload, ranges: seq<Range>, order: seq<nat>, ids: seq<JobId>,
                          read: Output -> O)
    requires Covers(ranges, 0, load.Total()) && load.Total() > 0
    requires DoneSpecs(db, SpecsFrom(load, ranges, 0), order, ids)
    ensures CompletedOutputs(db.jobs, ids) != [] && KindOf(db.jobs, ids) == load.Kind()
    ensures Read(CompletedOutputs(db.jobs, ids), read) == Outs(db, ids, read)
  {
    var specs := SpecsFrom(load, ranges, 0);
    var index := SpecsAreTiles(load, ranges, 0);
    NonEmptyCovers(ranges, 0, load.Total());
    assert ranges[0..] == ranges && |ids| == |NonEmpty(ranges)| > 0;
    assert forall i :: 0 <= i < |ids| ==> DoneAs(db, specs[order[i]], ids[i]);
    OutputsOfCompleted(db, ids);
    assert Read(CompletedOutputs(db.jobs, ids), read) == Outs(db, ids, read);
    assert specs[order[0]] == SpecFor(load, index[order[0]], NonEmpty(ranges)[order[0]]);
  }

  /** `s` is what `workload_detail` reports for these rows. */
  ghost predicate Detail(db: Db, rows: seq<JobId>, root: MonteCarlo.Root, s: Option<Summary>) {
    IsSummary(KindOf(db.jobs, rows), CompletedOutputs(db.jobs, rows), root, s)
  }

  /** The summary a dashboard reads for a completed sweep is the answer of one machine. */
  lemma OptimizeSummaryIsExact(w: World, calls: seq<FineCall>, wid: string, load: Workload, ranges: seq<Range>,
                               ids: seq<JobId>, s: Option<Summary>)
    requires CompletedLaunch(w, calls, wid, load, ranges, ids) && load.OptimizeLoad? && load.nCandidates > 0
    requires Detail(FineFinal(EMPTY_DB, calls), ids, w.sqrt, s)
    ensures s == Some(OptimizeSummary(Optimize.OptimizeOver(w, load.sweep, 0, load.nCandidates)))
  {
    LaunchOutputs(w, calls, wid, load, ranges, ids, AsOptimize);
    DistributedOptimize(w, calls, wid, load, ranges, ids, s.value.best);
  }

  /** ... and of a completed dataset, whose rows the summary cuts at 500. */
  lemma SynthSummaryIsExact(w: World, calls: seq<FineCall>, wid: string, load: Workload, ranges: seq<Range>,
                            ids: seq<JobId>, s: Option<Summary>)
    requires CompletedLaunch(w, calls, wid, load, ranges, ids) && load.SynthLoad? && load.totalRows > 0
    requires Detail(FineFinal(EMPTY_DB, calls), ids, w.sqrt, s)
    ensures s == Some(SynthSummary(load.totalRows, Synth.RowsOver(w, load.spec, 0, Min(500, load.totalRows))))
  {
    LaunchOutputs(w, calls, wid, load, ranges, ids, AsSynth);
    DistributedSynth(w, calls, wid, load, ranges, ids);
    ShownRows(w, load.spec, load.totalRows, Outs(FineFinal(EMPTY_DB, calls), ids, AsSynth));
  }

  lemma ShownRows(w: World, spec: Spec, total: nat, outs: seq<Synth.SynthOut>)
    requires Synth.Concat(Synth.SortTiles(outs)) == Synth.RowsOver(w, spec, 0, total)
    ensures var merged, shown := Synth.Concat(Synth.SortTiles(outs)), Min(SHOWN_ROWS, total);
            |merged| == total && merged[..shown] == Synth.RowsOver(w, spec, 0, shown)
  {
    FirstRows(w, spec, total, Min(SHOWN_ROWS, total));
  }

  lemma FirstRows(w: World, spec: Spec, total: nat, shown: nat)
    requires shown <= total
    ensures Synth.RowsOver(w, spec, 0, total)[..shown] == Synth.RowsOver(w, spec, 0, shown)
    ensures |Synth.RowsOver(w, spec, 0, total)| == total
  {
  }

  /** ... and of a completed search. */
  lemma HashSummaryIsExact(w: World, calls: seq<FineCall>, wid: string, load: Workload, ranges: seq<Range>,
                           ids: seq<JobId>, s: Option<Summary>)
    requires CompletedLaunch(w, calls, wid, load, ranges, ids) && load.HashLoad? && load.keyspace > 0
    requires Detail(FineFinal(EMPTY_DB, calls), ids, w.sqrt, s)
    ensures s.Some? && s.value.HashSummary? && RightAnswer(w, load, s.value.answer)
  {
    LaunchOutputs(w, calls, wid, load, ranges, ids, AsHash);
    DistributedSearch(w, calls, wid, load, ranges, ids, s.value.answer);
  }

  /** ... and of a completed portfolio simulation: exact for the paths the machines drew. */
  lemma RiskSummaryIsExact(w: World, calls: seq<FineCall>, wid: string, load: Workload, ranges: seq<Range>,
                           ids: seq<JobId>, s: Option<Summary>) returns (draws: seq<seq<real>>)
    requires CompletedLaunch(w, calls, wid, load, ranges, ids) && load.MonteCarloLoad? && load.totalPaths > 0
    requires MonteCarlo.IsRoot(w.sqrt) && Detail(FineFinal(EMPTY_DB, calls), ids, w.sqrt, s)
    ensures |draws| == |ids| && forall i :: 0 <= i < |ids| ==> JobDraws(w, FineFinal(EMPTY_DB, calls), ids[i], draws[i])
    ensures |Flatten(draws)| == load.totalPaths && load.bins > 0
    ensures s.Some? && s.value.RiskSummary? && s.value.report.Some?
    ensures Risk.ExactReport(w.sqrt, LoadBins(load), Flatten(draws), [0.95, 0.99], s.value.report.value)
  {
    LaunchOutputs(w, calls, wid, load, ranges, ids, AsSimulated);
    var outs := Outs(FineFinal(EMPTY_DB, calls), ids, AsSimulated);
    var res :| Risk.RiskReport(outs, w.sqrt, LEVELS, res) && s == OfReport(res);
    draws := DistributedRisk(w, calls, wid, load, ranges, ids, LEVELS, res);
  }
}
