/** Building the tiles of a launch (`_build_workload_jobs` and the builders of src/workloads). */
module Launch {
  import opened Base
  import opened Partition
  import opened Apportion
  import opened Jobkit
  import opened Contracts
  import opened Scheduler
  import MonteCarlo

  datatype Workload =
    | OptimizeLoad(nCandidates: int, sweep: Sweep)
    | FractalLoad(width: int, height: int, maxIter: int)
    | SynthLoad(totalRows: int, spec: Spec)
    | HashLoad(keyspace: int, target: string, prefix: string, nonceStart: int)
    | MonteCarloLoad(totalPaths: int, market: Market, lo: real, hi: real, bins: nat)
  {
    /** The work that the ranges split. */
    function Total(): int {
      match this
      case OptimizeLoad(n, _) => n
      case FractalLoad(_, height, _) => height
      case SynthLoad(n, _) => n
      case HashLoad(n, _, _, _) => n
      case MonteCarloLoad(n, _, _, _, _) => n
    }

    /** The `ValueError` of the builder's own checks. */
    function Problem(nTiles: int): Option<string> {
      if nTiles <= 0 then Some("n_tiles must be positive")
      else match this
        case OptimizeLoad(n, sweep) =>
          if n <= 0 then Some("n_candidates must be positive")
          else if sweep.dims <= 0 then Some("dims must be positive") else None
        case FractalLoad(width, height, maxIter) =>
          if width <= 0 || height <= 0 then Some("width and height must be positive")
          else if maxIter <= 0 then Some("max_iter must be positive") else None
        case SynthLoad(n, _) => if n <= 0 then Some("total_rows must be positive") else None
        case HashLoad(n, target, _, _) =>
          if n <= 0 then Some("keyspace must be positive")
          else if target == "" then Some("target_prefix must be non-empty") else None
        case MonteCarloLoad(n, market, _, _, _) =>
          if n <= 0 then Some("total_paths must be positive")
          else if market.steps <= 0 then Some("horizon_days must be positive") else None
    }

    function Kind(): string {
      match this
      case OptimizeLoad(_, _) => "optimize"
      case FractalLoad(_, _, _) => "fractal"
      case SynthLoad(_, _) => "ai.synth"
      case HashLoad(_, _, _, _) => "hashcrack"
      case MonteCarloLoad(_, _, _, _, _) => "montecarlo"
    }

    /** The input of the tile for range number `index`. */
    function TileFor(index: nat, r: Range): TileInput {
      match this
      case OptimizeLoad(_, sweep) => OptimizeTile(sweep, r)
      case FractalLoad(width, height, maxIter) => FractalTile(Frame(Max(0, width), height, maxIter), r)
      case SynthLoad(_, spec) => SynthTile(spec, r)
      case HashLoad(_, target, prefix, first) => HashTile(prefix, target, first, Range(first + r.start, first + r.end))
      case MonteCarloLoad(_, market, lo, hi, bins) => MonteCarloTile(market, lo, hi, bins, index + 1, r.Size())
    }
  }

  datatype JobSpec = JobSpec(manifest: Manifest, input: Payload, units: int)

  /** No builder asks for a GPU, memory or accelerators; the classification is the default. */
  function SpecFor(load: Workload, index: nat, r: Range): JobSpec {
    JobSpec(Manifest(load.Kind(), Requires(false, None, None, {}, 1), "internal"),
            Tile(load.TileFor(index, r)), r.Size())
  }

  /** The specs of the ranges from number k on; empty ranges yield none. */
  function SpecsFrom(load: Workload, ranges: seq<Range>, k: nat): seq<JobSpec>
    requires k <= |ranges|
    decreases |ranges| - k
  {
    if k == |ranges| then []
    else SpecsOf(load, k, ranges[k]) + SpecsFrom(load, ranges, k + 1)
  }

  function SpecsOf(load: Workload, index: nat, r: Range): seq<JobSpec> {
    if r.end <= r.start then [] else [SpecFor(load, index, r)]
  }

  /** The `ValueError` of the split. */
  function SplitError(total: int, nTiles: int, weights: Option<seq<real>>): Option<string> {
    if weights.None? then None
    else if |weights.value| != nTiles then Some("weights length must equal n_tiles")
    else Rejection("total", total, weights.value)
  }

  /** The sizes the ranges get: near-even, or in proportion to the weights. */
  function TileSizes(total: nat, nTiles: nat, weights: Option<seq<real>>, share: Rounded): seq<int>
    requires nTiles > 0
  {
    if weights.None? then EvenSizes(total, nTiles) else LargestRemainder(total, Shares(share, total, weights.value))
  }

  /** `ranges` are laid end to end with those sizes; they cover the work exactly when no weighted leftover is lost. */
  ghost predicate IsSplit(total: nat, nTiles: nat, weights: Option<seq<real>>, share: Rounded, ranges: seq<Range>)
    requires nTiles > 0
  {
    && |ranges| == nTiles && Sizes(ranges) == TileSizes(total, nTiles, weights, share)
    && Covers(ranges, 0, Sum(Sizes(ranges)))
    && (Covers(ranges, 0, total) <==> (weights.Some? ==> LeftoverFits(total, Shares(share, total, weights.value))))
  }

  /** Even ranges, or ranges in proportion to one weight per tile. */
  method SplitRanges(total: int, nTiles: int, weights: Option<seq<real>>, share: Rounded)
    returns (res: Result<seq<Range>>)
    requires nTiles > 0 && total > 0 && KeepsSign(share)
    ensures SplitError(total, nTiles, weights).Some? ==> res == Err(SplitError(total, nTiles, weights).value)
    ensures SplitError(total, nTiles, weights).None? ==>
              res.Ok? && IsSplit(total, nTiles, weights, share, res.value)
  {
    if weights.None? {
      res := EvenRanges(total, nTiles);
      SizesAddUp(res.value, 0, total);
      assert |Sizes(res.value)| == nTiles;
    } else if |weights.value| != nTiles {
      res := Err("weights length must equal n_tiles");
    } else {
      res := WeightedRanges(total, weights.value, share);
      assert res.Ok? ==> |Sizes(res.value)| == nTiles;
    }
  }

  lemma PositiveTotal(load: Workload, nTiles: int)
    requires load.Problem(nTiles).None?
    ensures nTiles > 0 && load.Total() > 0
  {
  }

  /** A launch has no problem exactly when everything it counts is positive, and a search has a target. */
  lemma ProblemIff(load: Workload, nTiles: int)
    ensures load.Problem(nTiles).None? <==>
              && nTiles > 0 && load.Total() > 0
              && (load.OptimizeLoad? ==> load.sweep.dims > 0)
              && (load.FractalLoad? ==> load.width > 0 && load.maxIter > 0)
              && (load.HashLoad? ==> load.target != "")
              && (load.MonteCarloLoad? ==> load.market.steps > 0)
    ensures nTiles <= 0 ==> load.Problem(nTiles) == Some("n_tiles must be positive")
  {
  }

  /** A launched tile asks for nothing but one processor, and is internal: any worker of the next-to-lowest tier may run
      it. */
  lemma LaunchedTileSuits(load: Workload, index: nat, r: Range, cap: Capability, freeRam: Option<real>, tier: string)
    ensures var m := SpecFor(load, index, r).manifest;
            && m.kind == load.Kind() && SpecFor(load, index, r).units == r.end - r.start
            && (CapabilityMatch(m.requirements, cap, freeRam) <==> cap.cpus >= 1)
            && (MayRoute(m.classification, tier) <==> tier in TIERS && tier != "untrusted")
  {
    MayRouteIffRanked("internal", tier);
    IndexOfFour("public", "internal", "confidential", "restricted", "internal");
    IndexOfFour("untrusted", "managed", "sanctioned", "confidential_compute", tier);
  }

  /** Refused exactly for the builder's own reasons or the split's; otherwise one spec per non-empty range. */
  method BuildWorkloadJobs(load: Workload, nTiles: int, weights: Option<seq<real>>, share: Rounded)
    returns (res: Result<seq<JobSpec>>, ghost ranges: seq<Range>)
    requires KeepsSign(share)
    ensures load.Problem(nTiles).Some? ==> res == Err(load.Problem(nTiles).value)
    ensures load.Problem(nTiles).None? && SplitError(load.Total(), nTiles, weights).Some? ==>
              res == Err(SplitError(load.Total(), nTiles, weights).value)
    ensures load.Problem(nTiles).None? && SplitError(load.Total(), nTiles, weights).None? ==>
              && nTiles > 0 && load.Total() > 0 && IsSplit(load.Total(), nTiles, weights, share, ranges)
              && res == Ok(SpecsFrom(load, ranges, 0))
  {
    ranges := [];
    var problem := load.Problem(nTiles);
    if problem.Some? {
      return Err(problem.value), [];
    }
    PositiveTotal(load, nTiles);
    var split := SplitRanges(load.Total(), nTiles, weights, share);
    if split.Err? {
      return Err(split.message), [];
    }
    var jobs := BuildSpecs(load, split.value);
    res, ranges := Ok(jobs), split.value;
  }

  /** The loop of every builder. */
  method BuildSpecs(load: Workload, slices: seq<Range>) returns (jobs: seq<JobSpec>)
    ensures jobs == SpecsFrom(load, slices, 0)
  {
    jobs := [];
    for k := 0 to |slices|
      invariant jobs + SpecsFrom(load, slices, k) == SpecsFrom(load, slices, 0)
    {
      Regroup(jobs, SpecsOf(load, k, slices[k]), SpecsFrom(load, slices, k + 1));
      if slices[k].end <= slices[k].start {
        assert jobs + [] == jobs;
        continue;
      }
      jobs := jobs + [SpecFor(load, k, slices[k])];
    }
  }

  lemma Regroup<T>(a: seq<T>, b: seq<T>, c: seq<T>)
    ensures a + (b + c) == a + b + c
  {
  }

  /** The specs are the tiles of the non-empty ranges, in order, each with the number of its range. */
  lemma {:induction false} SpecsAreTiles(load: Workload, ranges: seq<Range>, k: nat) returns (index: seq<nat>)
    requires k <= |ranges|
    ensures var specs, tiles := SpecsFrom(load, ranges, k), NonEmpty(ranges[k..]);
            && |specs| == |tiles| == |index|
            && forall i :: 0 <= i < |tiles| ==> specs[i] == SpecFor(load, index[i], tiles[i])
    decreases |ranges| - k
  {
    if k == |ranges| {
      return [];
    }
    var rest := SpecsAreTiles(load, ranges, k + 1);
    index := (if ranges[k].end <= ranges[k].start then [] else [k]) + rest;
    TilesStep(load, ranges, k, index, rest);
  }

  lemma TilesStep(load: Workload, ranges: seq<Range>, k: nat, index: seq<nat>, rest: seq<nat>)
    requires k < |ranges| && index == (if ranges[k].end <= ranges[k].start then [] else [k]) + rest
    requires var specs, tiles := SpecsFrom(load, ranges, k + 1), NonEmpty(ranges[k + 1..]);
             && |specs| == |tiles| == |rest|
             && forall i :: 0 <= i < |tiles| ==> specs[i] == SpecFor(load, rest[i], tiles[i])
    ensures var specs, tiles := SpecsFrom(load, ranges, k), NonEmpty(ranges[k..]);
            && |specs| == |tiles| == |index|
            && forall i :: 0 <= i < |tiles| ==> specs[i] == SpecFor(load, index[i], tiles[i])
  {
    assert ranges[k..][0] == ranges[k] && ranges[k..][1..] == ranges[k + 1..];
  }

  function Units(specs: seq<JobSpec>): seq<int> {
    seq(|specs|, i requires 0 <= i < |specs| => specs[i].units)
  }

  /** The units of a launch add up to its work, and every tile has some. */
  lemma {:induction false} UnitsAddUp(load: Workload, ranges: seq<Range>, k: nat, lo: int, hi: int)
    requires k <= |ranges| && Covers(ranges[k..], lo, hi)
    ensures Sum(Units(SpecsFrom(load, ranges, k))) == hi - lo
    ensures forall s :: s in SpecsFrom(load, ranges, k) ==> s.units > 0
    decreases |ranges| - k
  {
    if k < |ranges| {
      assert ranges[k..][0] == ranges[k] && ranges[k..][1..] == ranges[k + 1..];
      UnitsAddUp(load, ranges, k + 1, ranges[k].end, hi);
      UnitsJoin(SpecsOf(load, k, ranges[k]), SpecsFrom(load, ranges, k + 1));
      assert Sum(Units(SpecsOf(load, k, ranges[k]))) == ranges[k].end - lo;
    }
  }

  lemma UnitsJoin(a: seq<JobSpec>, b: seq<JobSpec>)
    ensures Sum(Units(a + b)) == Sum(Units(a)) + Sum(Units(b))
  {
    assert Units(a + b) == Units(a) + Units(b);
    SumAppend(Units(a), Units(b));
  }

  /** Distinct tiles of a Monte-Carlo launch draw from distinct random streams. */
  lemma {:induction false} SeedsIncrease(load: Workload, ranges: seq<Range>, k: nat)
    requires load.MonteCarloLoad? && k <= |ranges|
    ensures forall i :: 0 <= i < |SpecsFrom(load, ranges, k)| ==>
              var t := SpecsFrom(load, ranges, k)[i].input;
              t.Tile? && t.tile.MonteCarloTile? && t.tile.seed >= k + 1
    ensures forall i, j :: 0 <= i < j < |SpecsFrom(load, ranges, k)| ==>
              var s := SpecsFrom(load, ranges, k);
              s[i].input.Tile? && s[j].input.Tile? && s[i].input.tile.MonteCarloTile? && s[j].input.tile.MonteCarloTile?
              && s[i].input.tile.seed < s[j].input.tile.seed
    decreases |ranges| - k
  {
    if k < |ranges| {
      SeedsIncrease(load, ranges, k + 1);
    }
  }

  /** The chunks of a Monte-Carlo tile, on a machine with so many cores. */
  function ChunksOf(spec: JobSpec, cores: nat): seq<MonteCarlo.Task>
    requires cores > 0
  {
    if spec.input.Tile? && spec.input.tile.MonteCarloTile?
    then MonteCarlo.TileTasks(spec.input.tile.seed, Max(0, spec.input.tile.paths), cores) else []
  }

  /** All chunks of all tiles of a launch draw from pairwise distinct random streams, whatever machine runs which
      tile. */
  lemma AllStreamsDiffer(load: Workload, ranges: seq<Range>, cores: seq<nat>, i: nat, a: nat, j: nat, b: nat)
    requires load.MonteCarloLoad? && |cores| == |SpecsFrom(load, ranges, 0)|
    requires forall k :: 0 <= k < |cores| ==> 0 < cores[k] <= 1_000_003
    requires i < |cores| && a < |ChunksOf(SpecsFrom(load, ranges, 0)[i], cores[i])|
    requires j < |cores| && b < |ChunksOf(SpecsFrom(load, ranges, 0)[j], cores[j])|
    ensures var specs := SpecsFrom(load, ranges, 0);
            ChunksOf(specs[i], cores[i])[a].stream == ChunksOf(specs[j], cores[j])[b].stream <==> i == j && a == b
  {
    var specs := SpecsFrom(load, ranges, 0);
    var s, t := specs[i].input.tile, specs[j].input.tile;
    SeedsIncrease(load, ranges, 0);
    if i != j {
      MonteCarlo.TilesDrawApart(s.seed, Max(0, s.paths), cores[i], a, t.seed, Max(0, t.paths), cores[j], b);
    } else if a < b {
      MonteCarlo.ChunksDrawApart(s.seed, Max(0, s.paths), cores[i], a, b);
    } else if b < a {
      MonteCarlo.ChunksDrawApart(s.seed, Max(0, s.paths), cores[i], b, a);
    }
  }
}
