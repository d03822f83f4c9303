/** End to end: a launch that any run of the finer grain completes with honest outputs gives the answer of
    one machine, whatever was leased, expired, yielded, retried or lost on the way. */
module Fleet {
  import opened Base
  import opened Partition
  import opened Jobkit
  import opened Contracts
  import opened Launch
  import opened Protocol
  import opened Lease
  import opened Credits
  import Optimize
  import Fractal
  import Synth
  import HashCrack
  import MonteCarlo
  import Risk

  /** `out` is what the executor returns for `input` when it neither yields nor loses a chunk. */
  ghost predicate Honest(w: World, input: Payload, out: Output) {
    match input
    case Tile(OptimizeTile(sweep, r)) => out == TileDone(Optimized(Optimize.OptimizeOver(w, sweep, r.start, r.end)))
    case Tile(FractalTile(frame, r)) => out == TileDone(Rendered(Fractal.RenderOver(w, frame, r.start, r.end)))
    case Tile(SynthTile(spec, r)) => out == TileDone(Synthesized(Synth.SynthOver(w, spec, r.start, r.end)))
    case Tile(HashTile(prefix, target, _, r)) =>
      out.TileDone? && out.out.Searched?
      && HashCrack.TileSearched(w, prefix, HashCrack.Lower(target), r.start, r.end, true, out.out.hash)
    case Tile(MonteCarloTile(market, lo, hi, bins, seed, paths)) =>
      out.TileDone? && out.out.Simulated?
      && MonteCarlo.HonestRisk(w, market, lo, hi, bins, seed, Max(0, paths), out.out.risk)
    case _ => true
  }

  ghost predicate InWorkload(db: Db, wid: string, id: JobId) {
    id in db.jobs && db.jobs[id].workload == Some(wid)
  }

  ghost predicate HonestResults(w: World, db: Db, wid: string) {
    forall id :: InWorkload(db, wid, id) && db.jobs[id].result.Some? ==>
      Honest(w, db.jobs[id].input, db.jobs[id].result.value)
  }

  /** Whenever a step completes a job of the workload, the output it accepts is honest. */
  ghost predicate AcceptsHonestly(w: World, db: Db, f: FineCall, wid: string)
    requires FineWellFormed(db, f)
  {
    forall id :: InWorkload(db, wid, id) && db.jobs[id].state != Completed
                 && id in FineStep(db, f).jobs && FineStep(db, f).jobs[id].state == Completed
                 && FineStep(db, f).jobs[id].result.Some? ==>
      Honest(w, db.jobs[id].input, FineStep(db, f).jobs[id].result.value)
  }

  ghost predicate HonestRun(w: World, db: Db, calls: seq<FineCall>, wid: string)
    requires FineRun(db, calls)
    decreases |calls|
  {
    calls == [] || (AcceptsHonestly(w, db, calls[0], wid) && HonestRun(w, FineStep(db, calls[0]), calls[1..], wid))
  }

  predicate IsSubmission(f: FineCall, wid: string) {
    f.Whole? && f.call.Submit? && f.call.units > 0 && f.call.workload == Some(wid)
  }

  function Submitted1(f: FineCall, wid: string): seq<Call> {
    if IsSubmission(f, wid) then [f.call] else []
  }

  /** The accepted submissions of the workload, in order; other calls may come in between. */
  function Submissions(calls: seq<FineCall>, wid: string): seq<Call> {
    if calls == [] then []
    else Submitted1(calls[0], wid) + Submissions(calls[1..], wid)
  }

  ghost predicate Carries(j: Job, c: Call)
    requires c.Submit?
  {
    j.manifest == c.manifest && j.input == c.input && j.units == c.units
  }

  /** The jobs of the workload are exactly those submitted for it. */
  ghost predicate Placed(db: Db, wid: string, subs: seq<Call>) {
    && (forall i :: 0 <= i < |subs| ==>
          subs[i].Submit? && InWorkload(db, wid, subs[i].job) && Carries(db.jobs[subs[i].job], subs[i]))
    && (forall i, k :: 0 <= i < k < |subs| ==> subs[i].Submit? && subs[k].Submit? && subs[i].job != subs[k].job)
    && (forall id :: InWorkload(db, wid, id) ==> exists i :: 0 <= i < |subs| && subs[i].Submit? && subs[i].job == id)
  }

  // ---------------------------------------------------------------- one step, then runs

  lemma OnlySubmissionsAdd(db: Db, f: FineCall, id: JobId)
    requires FineWellFormed(db, f) && id !in db.jobs && id in FineStep(db, f).jobs
    ensures f.Whole? && f.call.Submit? && f.call.units > 0 && f.call.job == id
    ensures FineStep(db, f).jobs[id].workload == f.call.workload && Carries(FineStep(db, f).jobs[id], f.call)
    ensures FineStep(db, f).jobs[id].result.None?
  {
  }

  lemma StepKeepsPlaced(db: Db, f: FineCall, wid: string, subs: seq<Call>)
    requires Inv(db) && FineWellFormed(db, f) && Placed(db, wid, subs)
    ensures Placed(FineStep(db, f), wid, subs + Submitted1(f, wid))
  {
    var next := FineStep(db, f);
    var all := subs + Submitted1(f, wid);
    FineStepKeeps(db, f);
    forall i | 0 <= i < |all|
      ensures all[i].Submit? && InWorkload(next, wid, all[i].job) && Carries(next.jobs[all[i].job], all[i])
    {
      if i < |subs| {
        assert SameSubmission(db.jobs[subs[i].job], next.jobs[subs[i].job]);
      }
    }
    forall id | InWorkload(next, wid, id)
      ensures exists i :: 0 <= i < |all| && all[i].Submit? && all[i].job == id
    {
      if id in db.jobs {
        assert SameSubmission(db.jobs[id], next.jobs[id]);
        assert InWorkload(db, wid, id);
        var i :| 0 <= i < |subs| && subs[i].Submit? && subs[i].job == id;
        assert all[i].job == id;
      } else {
        OnlySubmissionsAdd(db, f, id);
        assert all[|subs|].job == id;
      }
    }
  }

  /** A result, once there, only comes from the step that completed its job. */
  lemma StepKeepsHonest(w: World, db: Db, f: FineCall, wid: string)
    requires Inv(db) && FineWellFormed(db, f) && HonestResults(w, db, wid) && AcceptsHonestly(w, db, f, wid)
    ensures HonestResults(w, FineStep(db, f), wid)
  {
    var next := FineStep(db, f);
    FineStepKeeps(db, f);
    forall id | InWorkload(next, wid, id) && next.jobs[id].result.Some?
      ensures Honest(w, next.jobs[id].input, next.jobs[id].result.value)
    {
      assert Shaped(next.jobs[id]);
      if id in db.jobs {
        assert SameSubmission(db.jobs[id], next.jobs[id]) && Shaped(db.jobs[id]);
        assert InWorkload(db, wid, id);
      } else {
        OnlySubmissionsAdd(db, f, id);
      }
    }
  }

  lemma FirstCall(db: Db, calls: seq<FineCall>, wid: string, before: seq<Call>) returns (next: Db, after: seq<Call>)
    requires Inv(db) && FineRun(db, calls) && calls != [] && Placed(db, wid, before)
    ensures Inv(next) && FineRun(next, calls[1..]) && FineFinal(db, calls) == FineFinal(next, calls[1..])
    ensures Placed(next, wid, after) && before + Submissions(calls, wid) == after + Submissions(calls[1..], wid)
  {
    next, after := FineStep(db, calls[0]), before + Submitted1(calls[0], wid);
    FineStepKeeps(db, calls[0]);
    StepKeepsPlaced(db, calls[0], wid, before);
    assert after + Submissions(calls[1..], wid) == before + (Submitted1(calls[0], wid) + Submissions(calls[1..], wid));
  }

  lemma {:induction false} RunPlaces(db: Db, calls: seq<FineCall>, wid: string, before: seq<Call>)
    requires Inv(db) && FineRun(db, calls) && Placed(db, wid, before)
    ensures Placed(FineFinal(db, calls), wid, before + Submissions(calls, wid))
    decreases |calls|
  {
    if calls == [] {
      assert before + Submissions(calls, wid) == before;
    } else {
      var next, after := FirstCall(db, calls, wid, before);
      RunPlaces(next, calls[1..], wid, after);
    }
  }

  /** After any run the jobs of a workload are exactly those submitted for it. */
  lemma JobsAreSubmissions(calls: seq<FineCall>, wid: string)
    requires FineRun(EMPTY_DB, calls)
    ensures Placed(FineFinal(EMPTY_DB, calls), wid, Submissions(calls, wid))
  {
    RunPlaces(EMPTY_DB, calls, wid, []);
    EmptyFirst(Submissions(calls, wid));
  }

  lemma EmptyFirst<T>(s: seq<T>)
    ensures [] + s == s
  {
  }

  lemma {:induction false} RunKeepsHonest(w: World, db: Db, calls: seq<FineCall>, wid: string)
    requires Inv(db) && FineRun(db, calls) && HonestRun(w, db, calls, wid) && HonestResults(w, db, wid)
    ensures HonestResults(w, FineFinal(db, calls), wid)
    decreases |calls|
  {
    if calls != [] {
      FineStepKeeps(db, calls[0]);
      StepKeepsHonest(w, db, calls[0], wid);
      RunKeepsHonest(w, FineStep(db, calls[0]), calls[1..], wid);
    }
  }

  // ---------------------------------------------------------------- the completed workload

  /** `ids` lists the jobs of the workload once each, in any order, and all of them are completed. */
  ghost predicate Listed(db: Db, wid: string, ids: seq<JobId>) {
    && (forall i :: 0 <= i < |ids| ==> InWorkload(db, wid, ids[i]) && db.jobs[ids[i]].state == Completed)
    && (forall i, k :: 0 <= i < k < |ids| ==> ids[i] != ids[k])
    && (forall id :: InWorkload(db, wid, id) ==> id in ids)
  }

  /** The submissions made for the workload are the specs of the launch. */
  ghost predicate Launched(subs: seq<Call>, specs: seq<JobSpec>) {
    |subs| == |specs| && forall i :: 0 <= i < |subs| ==>
      && subs[i].Submit? && subs[i].manifest == specs[i].manifest
      && subs[i].input == specs[i].input && subs[i].units == specs[i].units
  }

  /** A launch over `ranges`, run to completion; `ids` lists its jobs. */
  ghost predicate FinishedLaunch(calls: seq<FineCall>, wid: string, load: Workload, ranges: seq<Range>,
                                 ids: seq<JobId>) {
    && FineRun(EMPTY_DB, calls) && Covers(ranges, 0, load.Total())
    && Launched(Submissions(calls, wid), SpecsFrom(load, ranges, 0))
    && Listed(FineFinal(EMPTY_DB, calls), wid, ids)
  }

  /** ... with honest outputs. */
  ghost predicate CompletedLaunch(w: World, calls: seq<FineCall>, wid: string, load: Workload, ranges: seq<Range>,
                                  ids: seq<JobId>) {
    FinishedLaunch(calls, wid, load, ranges, ids) && HonestRun(w, EMPTY_DB, calls, wid)
  }

  lemma SubmissionIndex(db: Db, wid: string, subs: seq<Call>, ids: seq<JobId>) returns (order: seq<nat>)
    requires Placed(db, wid, subs) && Listed(db, wid, ids)
    ensures Permutation(order, |subs|) && |order| == |ids|
    ensures forall i :: 0 <= i < |ids| ==> subs[order[i]].Submit? && subs[order[i]].job == ids[i]
  {
    order := [];
    for n := 0 to |ids|
      invariant |order| == n
      invariant forall i :: 0 <= i < n ==> order[i] < |subs| && subs[order[i]].Submit? && subs[order[i]].job == ids[i]
    {
      assert InWorkload(db, wid, ids[n]);
      var k :| 0 <= k < |subs| && subs[k].Submit? && subs[k].job == ids[n];
      order := order + [k];
    }
    SameLength(db, wid, subs, ids);
  }

  lemma SameLength(db: Db, wid: string, subs: seq<Call>, ids: seq<JobId>)
    requires Placed(db, wid, subs) && Listed(db, wid, ids)
    ensures |ids| == |subs|
  {
    var jobs := JobsOf(subs);
    forall id
      ensures id in jobs <==> id in ids
    {
      if id in ids {
        assert InWorkload(db, wid, id);
        var k :| 0 <= k < |subs| && subs[k].Submit? && subs[k].job == id;
        assert jobs[k] == id;
      }
      if id in jobs {
        var k :| 0 <= k < |jobs| && jobs[k] == id;
        assert InWorkload(db, wid, subs[k].job);
      }
    }
    assert Elems(jobs) == Elems(ids);
    DistinctCardinality(jobs);
    DistinctCardinality(ids);
  }

  function JobsOf(subs: seq<Call>): (ids: seq<JobId>)
    requires forall i :: 0 <= i < |subs| ==> subs[i].Submit?
    ensures |ids| == |subs| && forall i :: 0 <= i < |subs| ==> ids[i] == subs[i].job
  {
    seq(|subs|, i requires 0 <= i < |subs| => subs[i].job)
  }

  /** Job `id` is completed and was submitted with this spec. */
  ghost predicate DoneAs(db: Db, spec: JobSpec, id: JobId) {
    && id in db.jobs && db.jobs[id].state == Completed && db.jobs[id].result.Some?
    && db.jobs[id].manifest == spec.manifest && db.jobs[id].input == spec.input && db.jobs[id].units == spec.units
  }

  /** The listed jobs are the specs of the launch, each once, in the order `order`. */
  ghost predicate DoneSpecs(db: Db, specs: seq<JobSpec>, order: seq<nat>, ids: seq<JobId>) {
    && Permutation(order, |specs|) && |ids| == |order|
    && forall i :: 0 <= i < |ids| ==> DoneAs(db, specs[order[i]], ids[i])
  }

  /** Each listed job of a finished launch is one of its specs; together they are all of them. */
  lemma SpecsDone(calls: seq<FineCall>, wid: string, load: Workload, ranges: seq<Range>, ids: seq<JobId>)
    returns (order: seq<nat>)
    requires FinishedLaunch(calls, wid, load, ranges, ids)
    ensures Inv(FineFinal(EMPTY_DB, calls))
    ensures DoneSpecs(FineFinal(EMPTY_DB, calls), SpecsFrom(load, ranges, 0), order, ids)
  {
    var db, subs := FineFinal(EMPTY_DB, calls), Submissions(calls, wid);
    ReachableStatesAreSound(calls);
    JobsAreSubmissions(calls, wid);
    order := PlacedSpecs(db, wid, subs, SpecsFrom(load, ranges, 0), ids);
  }

  lemma PlacedSpecs(db: Db, wid: string, subs: seq<Call>, specs: seq<JobSpec>, ids: seq<JobId>)
    returns (order: seq<nat>)
    requires AllShaped(db.jobs) && Placed(db, wid, subs) && Listed(db, wid, ids) && Launched(subs, specs)
    ensures DoneSpecs(db, specs, order, ids)
  {
    order := SubmissionIndex(db, wid, subs, ids);
    forall i | 0 <= i < |ids|
      ensures DoneAs(db, specs[order[i]], ids[i])
    {
      assert InWorkload(db, wid, ids[i]) && Shaped(db.jobs[ids[i]]);
      assert Carries(db.jobs[ids[i]], subs[order[i]]);
    }
  }

  /** Job `id` is the completed tile of `r`, with an honest result. */
  ghost predicate IsDoneTile(w: World, db: Db, load: Workload, r: Range, id: JobId) {
    && id in db.jobs && db.jobs[id].state == Completed && db.jobs[id].units == r.Size()
    && db.jobs[id].manifest.kind == load.Kind() && db.jobs[id].result.Some?
    && Honest(w, Tile(load.TileFor(0, r)), db.jobs[id].result.value)
  }

  /** The listed jobs are the tiles of the launch, each once, in the order `order`. */
  ghost predicate DoneTiles(w: World, db: Db, load: Workload, tiles: seq<Range>, order: seq<nat>, ids: seq<JobId>) {
    && Covers(tiles, 0, load.Total()) && (forall r :: r in tiles ==> r.start < r.end)
    && Permutation(order, |tiles|) && |ids| == |order|
    && forall i :: 0 <= i < |ids| ==> IsDoneTile(w, db, load, tiles[order[i]], ids[i])
  }

  /** For the kinds that split a range: each listed job is one tile, with an honest result; together they are all. */
  lemma TilesOf(w: World, calls: seq<FineCall>, wid: string, load: Workload, ranges: seq<Range>, ids: seq<JobId>)
    returns (order: seq<nat>)
    requires CompletedLaunch(w, calls, wid, load, ranges, ids) && !load.MonteCarloLoad?
    ensures DoneTiles(w, FineFinal(EMPTY_DB, calls), load, NonEmpty(ranges), order, ids)
  {
    var db := FineFinal(EMPTY_DB, calls);
    order := SpecsDone(calls, wid, load, ranges, ids);
    RunKeepsHonest(w, EMPTY_DB, calls, wid);
    NonEmptyCovers(ranges, 0, load.Total());
    var index := SpecsAreTiles(load, ranges, 0);
    assert ranges[0..] == ranges;
    forall i | 0 <= i < |ids|
      ensures IsDoneTile(w, db, load, NonEmpty(ranges)[order[i]], ids[i])
    {
      assert DoneAs(db, SpecsFrom(load, ranges, 0)[order[i]], ids[i]);
      DoneTile(w, db, wid, load, index[order[i]], NonEmpty(ranges)[order[i]], ids[i]);
    }
  }

  lemma DoneTile(w: World, db: Db, wid: string, load: Workload, index: nat, r: Range, id: JobId)
    requires !load.MonteCarloLoad? && DoneAs(db, SpecFor(load, index, r), id)
    requires HonestResults(w, db, wid) && InWorkload(db, wid, id)
    ensures IsDoneTile(w, db, load, r, id)
  {
  }

  // ---------------------------------------------------------------- the merged answers

  /** The stored output of a job, as the merge reads it. */
  function ResultOf(db: Db, id: JobId): Output {
    if id in db.jobs && db.jobs[id].result.Some? then db.jobs[id].result.value else Other("")
  }

  function AsOptimize(out: Output): Optimize.OptimizeOut {
    if out.TileDone? && out.out.Optimized? then out.out.best else Optimize.NOTHING
  }

  function AsFractal(out: Output): Fractal.FractalOut {
    if out.TileDone? && out.out.Rendered? then out.out.image else Fractal.FractalOut(0, 0, [], false)
  }

  function AsSynth(out: Output): Synth.SynthOut {
    if out.TileDone? && out.out.Synthesized? then out.out.synth else Synth.SynthOut([], 0, false)
  }

  function AsHash(out: Output): Option<HashCrack.HashOut> {
    if out.EmptyDict? then None
    else if out.TileDone? && out.out.Searched? then Some(out.out.hash)
    else Some(HashCrack.HashOut("", false, None, None, 0, false))
  }

  function AsSimulated(out: Output): MonteCarlo.McOut {
    if out.TileDone? && out.out.Simulated? then out.out.risk
    else MonteCarlo.McOut(0, 0.0, 0.0, 0.0, [], 0.0, 0.0, false)
  }

  /** The outputs of the listed jobs. */
  function Outs<O>(db: Db, ids: seq<JobId>, read: Output -> O): (outs: seq<O>)
    ensures |outs| == |ids| && forall i :: 0 <= i < |ids| ==> outs[i] == read(ResultOf(db, ids[i]))
  {
    seq(|ids|, i requires 0 <= i < |ids| => read(ResultOf(db, ids[i])))
  }

  /** The fleet's winner is the winner of one machine searching all candidates. */
  lemma DistributedOptimize(w: World, calls: seq<FineCall>, wid: string, load: Workload, ranges: seq<Range>,
                            ids: seq<JobId>, agg: Optimize.OptimizeOut)
    requires CompletedLaunch(w, calls, wid, load, ranges, ids) && load.OptimizeLoad?
    requires Optimize.FleetBest(Outs(FineFinal(EMPTY_DB, calls), ids, AsOptimize), agg)
    ensures agg == Optimize.OptimizeOver(w, load.sweep, 0, load.nCandidates)
  {
    var order := TilesOf(w, calls, wid, load, ranges, ids);
    MergedOptimize(w, FineFinal(EMPTY_DB, calls), load, NonEmpty(ranges), order, ids, agg);
  }

  lemma MergedOptimize(w: World, db: Db, load: Workload, tiles: seq<Range>, order: seq<nat>, ids: seq<JobId>,
                       agg: Optimize.OptimizeOut)
    requires DoneTiles(w, db, load, tiles, order, ids) && load.OptimizeLoad?
    requires Optimize.FleetBest(Outs(db, ids, AsOptimize), agg)
    ensures agg == Optimize.OptimizeOver(w, load.sweep, 0, load.nCandidates)
  {
    var outs := Outs(db, ids, AsOptimize);
    forall i | 0 <= i < |outs|
      ensures outs[i] == Optimize.OptimizeOver(w, load.sweep, tiles[order[i]].start, tiles[order[i]].end)
    {
      assert IsDoneTile(w, db, load, tiles[order[i]], ids[i]);
    }
    Optimize.MergeOptimize(w, load.sweep, tiles, load.nCandidates, order, outs, agg);
  }

  /** Assembling the collected bands raises nothing, and draws the image of one machine rendering all rows. */
  lemma DistributedFractal<C>(w: World, calls: seq<FineCall>, wid: string, load: Workload, ranges: seq<Range>,
                              ids: seq<JobId>, ramp: int -> C, black: C)
    requires CompletedLaunch(w, calls, wid, load, ranges, ids) && load.FractalLoad?
    requires load.width > 0 && load.height > 0
    ensures var frame := Frame(load.width, load.height, load.maxIter);
            var outs := Outs(FineFinal(EMPTY_DB, calls), ids, AsFractal);
            && Fractal.PaintAll(frame, ramp, Fractal.Blank(frame, black), outs) == Fractal.WholeImage(w, frame, ramp)
            && (0 <= load.maxIter ==> forall t :: t in outs ==> !Fractal.TileRaises(frame, t))
  {
    var order := TilesOf(w, calls, wid, load, ranges, ids);
    MergedFractal(w, FineFinal(EMPTY_DB, calls), load, NonEmpty(ranges), order, ids, ramp, black);
  }

  lemma MergedFractal<C>(w: World, db: Db, load: Workload, tiles: seq<Range>, order: seq<nat>, ids: seq<JobId>,
                         ramp: int -> C, black: C)
    requires DoneTiles(w, db, load, tiles, order, ids) && load.FractalLoad? && load.width > 0 && load.height > 0
    ensures var frame, outs := Frame(load.width, load.height, load.maxIter), Outs(db, ids, AsFractal);
            && Fractal.PaintAll(frame, ramp, Fractal.Blank(frame, black), outs) == Fractal.WholeImage(w, frame, ramp)
            && (0 <= load.maxIter ==> forall t :: t in outs ==> !Fractal.TileRaises(frame, t))
  {
    var frame, outs := Frame(load.width, load.height, load.maxIter), Outs(db, ids, AsFractal);
    forall i | 0 <= i < |outs|
      ensures outs[i] == Fractal.RenderOver(w, frame, tiles[order[i]].start, tiles[order[i]].end)
    {
      assert IsDoneTile(w, db, load, tiles[order[i]], ids[i]);
    }
    Fractal.MergeFractal(w, frame, ramp, black, tiles, order, outs);
  }

  /** The merged dataset is the row list of one machine. */
  lemma DistributedSynth(w: World, calls: seq<FineCall>, wid: string, load: Workload, ranges: seq<Range>,
                         ids: seq<JobId>)
    requires CompletedLaunch(w, calls, wid, load, ranges, ids) && load.SynthLoad?
    ensures Synth.Concat(Synth.SortTiles(Outs(FineFinal(EMPTY_DB, calls), ids, AsSynth)))
         == Synth.RowsOver(w, load.spec, 0, load.totalRows)
  {
    var order := TilesOf(w, calls, wid, load, ranges, ids);
    MergedSynth(w, FineFinal(EMPTY_DB, calls), load, NonEmpty(ranges), order, ids);
  }

  lemma MergedSynth(w: World, db: Db, load: Workload, tiles: seq<Range>, order: seq<nat>, ids: seq<JobId>)
    requires DoneTiles(w, db, load, tiles, order, ids) && load.SynthLoad?
    ensures Synth.Concat(Synth.SortTiles(Outs(db, ids, AsSynth))) == Synth.RowsOver(w, load.spec, 0, load.totalRows)
  {
    var outs := Outs(db, ids, AsSynth);
    forall i | 0 <= i < |outs|
      ensures outs[i] == Synth.SynthOver(w, load.spec, tiles[order[i]].start, tiles[order[i]].end)
    {
      assert IsDoneTile(w, db, load, tiles[order[i]], ids[i]);
    }
    Synth.MergeSynthIsWhole(w, load.spec, tiles, load.totalRows, order, outs);
  }

  /** The fleet finds a nonce exactly when the keyspace holds one. */
  lemma DistributedSearch(w: World, calls: seq<FineCall>, wid: string, load: Workload, ranges: seq<Range>,
                          ids: seq<JobId>, agg: HashCrack.FleetHash)
    requires CompletedLaunch(w, calls, wid, load, ranges, ids) && load.HashLoad?
    requires HashCrack.FleetAnswer(HashCrack.Present(Outs(FineFinal(EMPTY_DB, calls), ids, AsHash)), agg)
    ensures RightAnswer(w, load, agg)
  {
    var order := TilesOf(w, calls, wid, load, ranges, ids);
    MergedSearch(w, FineFinal(EMPTY_DB, calls), load, NonEmpty(ranges), order, ids, agg);
  }

  /** Found iff the keyspace holds a solution, with a true witness; otherwise every nonce was tried. */
  ghost predicate RightAnswer(w: World, load: Workload, agg: HashCrack.FleetHash)
    requires load.HashLoad?
  {
    var target, end := HashCrack.Lower(load.target), load.nonceStart + load.keyspace;
    && (agg.found <==> HashCrack.SomeHit(w, load.prefix, target, load.nonceStart, end))
    && (agg.found ==> HashCrack.Witness(w, load.prefix, target, load.nonceStart, end, agg.nonce, agg.hash))
    && (!agg.found ==> agg.tried == load.keyspace)
  }

  lemma MergedSearch(w: World, db: Db, load: Workload, tiles: seq<Range>, order: seq<nat>, ids: seq<JobId>,
                     agg: HashCrack.FleetHash)
    requires DoneTiles(w, db, load, tiles, order, ids) && load.HashLoad?
    requires HashCrack.FleetAnswer(HashCrack.Present(Outs(db, ids, AsHash)), agg)
    ensures RightAnswer(w, load, agg)
  {
    HonestSearchTiles(w, db, load, tiles, order, ids);
    RightSearch(w, load, tiles, order, HashCrack.Present(Outs(db, ids, AsHash)), agg);
  }

  lemma RightSearch(w: World, load: Workload, tiles: seq<Range>, order: seq<nat>, outs: seq<HashCrack.HashOut>,
                    agg: HashCrack.FleetHash)
    requires load.HashLoad? && Covers(tiles, 0, load.keyspace) && HashCrack.FleetAnswer(outs, agg)
    requires HashCrack.HonestTiles(w, load.prefix, HashCrack.Lower(load.target), load.nonceStart, tiles, order, outs)
    ensures RightAnswer(w, load, agg)
  {
    var target := HashCrack.Lower(load.target);
    HashCrack.SearchIsComplete(w, load.prefix, target, load.nonceStart, load.keyspace, tiles, order, outs, agg);
  }

  lemma HonestSearchTiles(w: World, db: Db, load: Workload, tiles: seq<Range>, order: seq<nat>, ids: seq<JobId>)
    requires DoneTiles(w, db, load, tiles, order, ids) && load.HashLoad?
    ensures HashCrack.HonestTiles(w, load.prefix, HashCrack.Lower(load.target), load.nonceStart, tiles, order,
                                  HashCrack.Present(Outs(db, ids, AsHash)))
  {
    var target, outs := HashCrack.Lower(load.target), Outs(db, ids, AsHash);
    forall i | 0 <= i < |outs|
      ensures outs[i].Some?
              && HashCrack.TileSearched(w, load.prefix, target, load.nonceStart + tiles[order[i]].start,
                                        load.nonceStart + tiles[order[i]].end, true, outs[i].value)
    {
      HonestSearch(w, db, load, tiles[order[i]], ids[i]);
    }
    HashCrack.AllPresent(outs);
  }

  lemma HonestSearch(w: World, db: Db, load: Workload, r: Range, id: JobId)
    requires load.HashLoad? && IsDoneTile(w, db, load, r, id)
    ensures var out := AsHash(ResultOf(db, id));
            out.Some? && HashCrack.TileSearched(w, load.prefix, HashCrack.Lower(load.target), load.nonceStart + r.start,
                                                load.nonceStart + r.end, true, out.value)
  {
  }

  // ---------------------------------------------------------------- portfolio risk

  /** The histogram that every tile of the launch uses. */
  function LoadBins(load: Workload): MonteCarlo.Bins
    requires load.MonteCarloLoad?
  {
    MonteCarlo.MakeBins(load.lo, load.hi, load.bins)
  }

  /** `rets` are the returns that the completed Monte-Carlo job simulated, on whatever machine. */
  ghost predicate JobDraws(w: World, db: Db, id: JobId, rets: seq<real>) {
    && id in db.jobs && db.jobs[id].input.Tile? && db.jobs[id].input.tile.MonteCarloTile?
    && var t := db.jobs[id].input.tile;
       t.paths >= 0 && MonteCarlo.TileDraws(w, t.market, t.seed, t.paths, rets)
  }

  /** Job i ran one of the launch's tiles and reports honestly on what it drew. */
  ghost predicate RiskJob(w: World, db: Db, load: Workload, id: JobId, rets: seq<real>)
    requires load.MonteCarloLoad?
  {
    && load.bins > 0 && JobDraws(w, db, id, rets) && db.jobs[id].units == |rets|
    && MonteCarlo.Summarizes(w.sqrt, LoadBins(load), rets, AsSimulated(ResultOf(db, id)))
  }

  lemma OneRiskJob(w: World, db: Db, wid: string, load: Workload, index: nat, r: Range, id: JobId)
    returns (rets: seq<real>)
    requires load.MonteCarloLoad? && r.start <= r.end && DoneAs(db, SpecFor(load, index, r), id)
    requires HonestResults(w, db, wid) && InWorkload(db, wid, id)
    ensures RiskJob(w, db, load, id, rets)
  {
    var n, seed, out := r.Size(), index + 1, AsSimulated(ResultOf(db, id));
    assert Honest(w, db.jobs[id].input, db.jobs[id].result.value);
    assert MonteCarlo.HonestRisk(w, load.market, load.lo, load.hi, load.bins, seed, n, out);
    rets :| MonteCarlo.TileDraws(w, load.market, seed, n, rets)
            && MonteCarlo.Summarizes(w.sqrt, MonteCarlo.MakeBins(load.lo, load.hi, load.bins), rets, out);
    MonteCarlo.TileDrawsItsPaths(w, load.market, seed, n, rets);
  }

  lemma {:induction false} PathsAddUp(parts: seq<seq<real>>, sizes: seq<int>)
    requires |sizes| == |parts| && forall i :: 0 <= i < |parts| ==> |parts[i]| == sizes[i]
    ensures |Flatten(parts)| == Sum(sizes)
  {
    if parts != [] {
      var n := |parts| - 1;
      PathsAddUp(parts[..n], sizes[..n]);
      SumPrefix(sizes, n);
      assert sizes[..n + 1] == sizes;
    }
  }

  /** Each listed job of a completed Monte-Carlo launch reports on its own draws, all of them together the paths. */
  lemma RiskJobs(w: World, calls: seq<FineCall>, wid: string, load: Workload, ranges: seq<Range>, ids: seq<JobId>)
    returns (draws: seq<seq<real>>)
    requires CompletedLaunch(w, calls, wid, load, ranges, ids) && load.MonteCarloLoad? && load.totalPaths > 0
    ensures |draws| == |ids| && |Flatten(draws)| == load.totalPaths && load.bins > 0
    ensures forall i :: 0 <= i < |ids| ==> RiskJob(w, FineFinal(EMPTY_DB, calls), load, ids[i], draws[i])
  {
    var db, specs := FineFinal(EMPTY_DB, calls), SpecsFrom(load, ranges, 0);
    var order := SpecsDone(calls, wid, load, ranges, ids);
    RunKeepsHonest(w, EMPTY_DB, calls, wid);
    forall i | 0 <= i < |ids|
      ensures InWorkload(db, wid, ids[i]) && IsDoneSpec(db, load, ranges, ids[i])
    {
      assert DoneAs(db, specs[order[i]], ids[i]);
    }
    draws := RiskDraws(w, db, wid, load, ranges, ids);
    assert ranges[0..] == ranges;
    UnitsAddUp(load, ranges, 0, 0, load.Total());
    DrawsAddUp(w, db, load, specs, order, ids, draws);
  }

  lemma DrawsAddUp(w: World, db: Db, load: Workload, specs: seq<JobSpec>, order: seq<nat>, ids: seq<JobId>,
                   draws: seq<seq<real>>)
    requires load.MonteCarloLoad? && DoneSpecs(db, specs, order, ids) && |draws| == |ids|
    requires forall i :: 0 <= i < |ids| ==> RiskJob(w, db, load, ids[i], draws[i])
    ensures |Flatten(draws)| == Sum(Units(specs)) && (Sum(Units(specs)) > 0 ==> load.bins > 0)
  {
    forall i | 0 <= i < |ids|
      ensures |draws[i]| == Reorder(Units(specs), order)[i]
    {
      assert DoneAs(db, specs[order[i]], ids[i]) && RiskJob(w, db, load, ids[i], draws[i]);
    }
    UnitsInAnyOrder(specs, order);
    PathsAddUp(draws, Reorder(Units(specs), order));
    assert draws != [] ==> RiskJob(w, db, load, ids[0], draws[0]);
  }

  lemma RiskDraws(w: World, db: Db, wid: string, load: Workload, ranges: seq<Range>, ids: seq<JobId>)
    returns (draws: seq<seq<real>>)
    requires load.MonteCarloLoad? && Covers(ranges, 0, load.Total()) && HonestResults(w, db, wid)
    requires forall i :: 0 <= i < |ids| ==> InWorkload(db, wid, ids[i]) && IsDoneSpec(db, load, ranges, ids[i])
    ensures |draws| == |ids| && forall i :: 0 <= i < |ids| ==> RiskJob(w, db, load, ids[i], draws[i])
  {
    var ok := (id: JobId, rets: seq<real>) => RiskJob(w, db, load, id, rets);
    forall i | 0 <= i < |ids|
      ensures Possible(ok, ids[i])
    {
      var rets := RiskDraw(w, db, wid, load, ranges, ids[i]);
      assert ok(ids[i], rets);
    }
    draws := Collect(ids, ok);
    assert forall i :: 0 <= i < |ids| ==> ok(ids[i], draws[i]);
  }

  ghost predicate IsDoneSpec(db: Db, load: Workload, ranges: seq<Range>, id: JobId) {
    exists k :: 0 <= k < |SpecsFrom(load, ranges, 0)| && DoneAs(db, SpecsFrom(load, ranges, 0)[k], id)
  }

  lemma RiskDraw(w: World, db: Db, wid: string, load: Workload, ranges: seq<Range>, id: JobId)
    returns (rets: seq<real>)
    requires load.MonteCarloLoad? && Covers(ranges, 0, load.Total()) && IsDoneSpec(db, load, ranges, id)
    requires HonestResults(w, db, wid) && InWorkload(db, wid, id)
    ensures RiskJob(w, db, load, id, rets)
  {
    var k :| 0 <= k < |SpecsFrom(load, ranges, 0)| && DoneAs(db, SpecsFrom(load, ranges, 0)[k], id);
    var tiles := NonEmpty(ranges);
    NonEmptyCovers(ranges, 0, load.Total());
    var index := SpecsAreTiles(load, ranges, 0);
    assert ranges[0..] == ranges && tiles[k] in tiles;
    rets := OneRiskJob(w, db, wid, load, index[k], tiles[k], id);
  }

  lemma UnitsInAnyOrder(specs: seq<JobSpec>, order: seq<nat>)
    requires Permutation(order, |specs|)
    ensures Sum(Reorder(Units(specs), order)) == Sum(Units(specs))
  {
    ReorderMultiset(Units(specs), order);
    SumMultiset(Reorder(Units(specs), order), Units(specs));
  }

  /** The fleet's risk report succeeds and is exact for the paths that the machines drew, `totalPaths` in all. */
  lemma DistributedRisk(w: World, calls: seq<FineCall>, wid: string, load: Workload, ranges: seq<Range>,
                        ids: seq<JobId>, levels: seq<real>, res: Result<Option<Risk.Report>>)
    returns (draws: seq<seq<real>>)
    requires CompletedLaunch(w, calls, wid, load, ranges, ids) && load.MonteCarloLoad? && load.totalPaths > 0
    requires MonteCarlo.IsRoot(w.sqrt)
    requires Risk.RiskReport(Outs(FineFinal(EMPTY_DB, calls), ids, AsSimulated), w.sqrt, levels, res)
    ensures |draws| == |ids| && forall i :: 0 <= i < |ids| ==> JobDraws(w, FineFinal(EMPTY_DB, calls), ids[i], draws[i])
    ensures load.bins > 0 && res.Ok? && res.value.Some? && res.value.value.paths == load.totalPaths == |Flatten(draws)|
    ensures Risk.ExactReport(w.sqrt, LoadBins(load), Flatten(draws), levels, res.value.value)
    ensures load.lo <= load.hi ==> forall k :: 0 <= k < |levels| && 0.0 <= levels[k] ==>
              res.value.value.risk[k].valueAtRisk <= res.value.value.risk[k].conditional
  {
    var db := FineFinal(EMPTY_DB, calls);
    draws := RiskJobs(w, calls, wid, load, ranges, ids);
    var outs := Outs(db, ids, AsSimulated);
    forall i | 0 <= i < |outs|
      ensures MonteCarlo.Summarizes(w.sqrt, LoadBins(load), draws[i], outs[i])
    {
      assert RiskJob(w, db, load, ids[i], draws[i]);
    }
    Risk.FleetReport(w.sqrt, LoadBins(load), draws, outs, levels, res);
    forall k | 0 <= k < |levels| && 0.0 <= levels[k] && load.lo <= load.hi
      ensures res.value.value.risk[k].valueAtRisk <= res.value.value.risk[k].conditional
    {
      Risk.ExactReportIsOrdered(w.sqrt, LoadBins(load), Flatten(draws), levels, res.value.value, k, k);
    }
  }

  // ---------------------------------------------------------------- what the launch costs

  lemma {:induction false} ChargesOfList(jobs: Jobs, ids: seq<JobId>, charges: seq<int>)
    requires |charges| == |ids| && (forall i, k :: 0 <= i < k < |ids| ==> ids[i] != ids[k])
    requires forall i :: 0 <= i < |ids| ==> ids[i] in jobs && charges[i] == Charge(jobs[ids[i]])
    ensures Elems(ids) <= jobs.Keys && Charges(jobs, Elems(ids)) == Sum(charges)
  {
    if ids == [] {
      assert Elems(ids) == {};
    } else {
      ChargesOfList(jobs, ids[1..], charges[1..]);
      assert Elems(ids) - {ids[0]} == Elems(ids[1..]);
      ChargesRemove(jobs, Elems(ids), ids[0]);
    }
  }

  /** No builder asks for a GPU, so each spec costs its units. */
  lemma SpecsCostTheirUnits(load: Workload, ranges: seq<Range>, i: nat)
    requires i < |SpecsFrom(load, ranges, 0)|
    ensures !SpecsFrom(load, ranges, 0)[i].manifest.requirements.needsGpu
  {
    var index := SpecsAreTiles(load, ranges, 0);
    assert SpecsFrom(load, ranges, 0)[i] == SpecFor(load, index[i], NonEmpty(ranges[0..])[i]);
  }

  /** A finished launch was paid exactly its total units, of whatever kind it is, whatever its outputs say, and
      however it was split, requeued or retried. */
  lemma LaunchPaysItsTotal(calls: seq<FineCall>, wid: string, load: Workload, ranges: seq<Range>, ids: seq<JobId>)
    requires FinishedLaunch(calls, wid, load, ranges, ids)
    ensures PaidFor(FineFinal(EMPTY_DB, calls).ledger, Elems(ids)) == load.Total()
  {
    var db, specs := FineFinal(EMPTY_DB, calls), SpecsFrom(load, ranges, 0);
    var order := SpecsDone(calls, wid, load, ranges, ids);
    var charges := Reorder(Units(specs), order);
    forall i | 0 <= i < |ids|
      ensures ids[i] in db.jobs && charges[i] == Charge(db.jobs[ids[i]])
    {
      assert DoneAs(db, specs[order[i]], ids[i]);
      SpecsCostTheirUnits(load, ranges, order[i]);
    }
    ChargesOfList(db.jobs, ids, charges);
    assert ranges[0..] == ranges;
    UnitsAddUp(load, ranges, 0, 0, load.Total());
    UnitsInAnyOrder(specs, order);
    CreditsAreConserved(db);
    assert Elems(ids) <= CompletedIds(db.jobs);
  }
}
