/** The rolling hour-of-week envelope (src/worker/profiler.py), with exact reals for floats. */
module Profiler {
  import opened Base

  const BUCKETS := 168
  const ALPHA := 0.05
  const DECAY := 0.02
  const STALE_SECONDS := 3_024_000.0   // 35 days
  const MAX_SAMPLES := 10_000_000

  type Raw = Option<real>

  datatype BucketStat = BucketStat(
    n: int, cpuMean: real, cpuMax: real, cpuMin: real,
    gpuMean: real, gpuMax: real, gpuN: int, ramMean: real, ramMax: real,
    acMean: real, idleMean: real, acN: int, idleN: int, updatedAt: real)

  const EMPTY := BucketStat(0, 0.0, 0.0, 100.0, 0.0, 0.0, 0, 0.0, 0.0, 0.0, 0.0, 0, 0, 0.0)

  function Percent(v: Raw, default: real): (p: real)
    requires 0.0 <= default <= 100.0
    ensures 0.0 <= p <= 100.0
  {
    RMax(0.0, RMin(100.0, match v case None => default case Some(x) => x))
  }

  function Ewma(prev: real, sample: real, n: int): real {
    if n <= 0 then sample else (1.0 - ALPHA) * prev + ALPHA * sample
  }

  function RollMax(prev: real, sample: real, mean: real): real {
    RMax(prev - DECAY * (prev - mean), sample)
  }

  function RollMin(prev: real, sample: real, mean: real): real {
    RMin(prev + DECAY * (mean - prev), sample)
  }

  /** One observation: usage in percent, and two optional indicators. */
  datatype Observation = Observation(
    cpu: Raw, gpu: Option<Raw>, ram: Raw, onAc: Option<bool>, idle: Option<bool>, ts: real)

  function Indicator(on: bool): real { if on then 100.0 else 0.0 }

  /** The bucket that an observation is folded into: the old one, or an empty one if it aged out. */
  function Base0(b: BucketStat, ts: real): BucketStat {
    if b.n > 0 && ts - b.updatedAt > STALE_SECONDS then EMPTY else b
  }

  function FoldCpu(b: BucketStat, cpu: real): BucketStat {
    var mean := Ewma(b.cpuMean, cpu, b.n);
    b.(cpuMean := mean,
       cpuMax := if b.n != 0 then RollMax(b.cpuMax, cpu, mean) else cpu,
       cpuMin := if b.n != 0 then RollMin(b.cpuMin, cpu, mean) else cpu)
  }

  function FoldGpu(b: BucketStat, gpu: real): BucketStat {
    var mean := Ewma(b.gpuMean, gpu, b.gpuN);
    b.(gpuMean := mean, gpuMax := if b.gpuN != 0 then RollMax(b.gpuMax, gpu, mean) else gpu, gpuN := b.gpuN + 1)
  }

  function FoldRam(b: BucketStat, ram: real): BucketStat {
    var mean := Ewma(b.ramMean, ram, b.n);
    b.(ramMean := mean, ramMax := if b.n != 0 then RollMax(b.ramMax, ram, mean) else ram)
  }

  function FoldFlags(b: BucketStat, onAc: Option<bool>, idle: Option<bool>): BucketStat {
    var c := if onAc.Some? then b.(acMean := Ewma(b.acMean, Indicator(onAc.value), b.acN), acN := b.acN + 1) else b;
    if idle.Some? then c.(idleMean := Ewma(c.idleMean, Indicator(idle.value), c.idleN), idleN := c.idleN + 1) else c
  }

  function Folded(b: BucketStat, o: Observation): BucketStat {
    var b0 := FoldCpu(Base0(b, o.ts), Percent(o.cpu, 0.0));
    var b1 := if o.gpu.Some? then FoldGpu(b0, Percent(o.gpu.value, 0.0)) else b0;
    var b2 := FoldFlags(FoldRam(b1, Percent(o.ram, 0.0)), o.onAc, o.idle);
    b2.(n := b2.n + 1, updatedAt := o.ts)
  }

  /** What holds of every bucket, and what holds once it has a sample. */
  ghost predicate Envelope(b: BucketStat) {
    && 0 <= b.gpuN <= b.n && 0 <= b.acN <= b.n && 0 <= b.idleN <= b.n
    && 0.0 <= b.cpuMean <= b.cpuMax <= 100.0 && 0.0 <= b.cpuMin
    && (b.n > 0 ==> b.cpuMin <= b.cpuMean)
    && 0.0 <= b.ramMean <= b.ramMax <= 100.0 && 0.0 <= b.gpuMean <= b.gpuMax <= 100.0
    && 0.0 <= b.acMean <= 100.0 && 0.0 <= b.idleMean <= 100.0
  }

  /** Although the extremes decay toward the mean that the sample already moved, they never cross it. */
  lemma ExtremesBracketMean(mean: real, low: real, high: real, sample: real, n: int)
    requires n > 0 && low <= mean <= high
    ensures var m := Ewma(mean, sample, n); RollMin(low, sample, m) <= m <= RollMax(high, sample, m)
  {
  }

  /** No recorded observation, stale reset included, breaks the envelope. */
  lemma FoldKeepsEnvelope(b: BucketStat, o: Observation)
    requires Envelope(b)
    ensures Envelope(Folded(b, o)) && Folded(b, o).n > 0
  {
    var b0 := Base0(b, o.ts);
    FoldCpuKeeps(b0, Percent(o.cpu, 0.0));
    var b1 := FoldCpu(b0, Percent(o.cpu, 0.0));
    if o.gpu.Some? {
      FoldGpuKeeps(b1, Percent(o.gpu.value, 0.0));
    }
    var b2 := if o.gpu.Some? then FoldGpu(b1, Percent(o.gpu.value, 0.0)) else b1;
    FoldRamKeeps(b2, Percent(o.ram, 0.0));
    FoldFlagsKeep(FoldRam(b2, Percent(o.ram, 0.0)), o.onAc, o.idle);
  }

  /** Counts while one observation is folded in: at most one more than before. */
  ghost predicate During(b: BucketStat) {
    && 0 <= b.n && 0 <= b.gpuN <= b.n + 1 && 0 <= b.acN <= b.n + 1 && 0 <= b.idleN <= b.n + 1
    && 0.0 <= b.cpuMin <= b.cpuMean <= b.cpuMax <= 100.0
    && 0.0 <= b.ramMean <= b.ramMax <= 100.0 && 0.0 <= b.gpuMean <= b.gpuMax <= 100.0
    && 0.0 <= b.acMean <= 100.0 && 0.0 <= b.idleMean <= 100.0
  }

  lemma FoldCpuKeeps(b: BucketStat, cpu: real)
    requires Envelope(b) && 0.0 <= cpu <= 100.0
    ensures During(FoldCpu(b, cpu)) && FoldCpu(b, cpu).gpuN <= b.n && FoldCpu(b, cpu).n == b.n
    ensures FoldCpu(b, cpu).acN <= b.n && FoldCpu(b, cpu).idleN <= b.n
  {
    if b.n > 0 {
      ExtremesBracketMean(b.cpuMean, b.cpuMin, b.cpuMax, cpu, b.n);
    }
  }

  lemma FoldGpuKeeps(b: BucketStat, gpu: real)
    requires During(b) && b.gpuN <= b.n && 0.0 <= gpu <= 100.0
    ensures During(FoldGpu(b, gpu))
  {
    if b.gpuN > 0 {
      ExtremesBracketMean(b.gpuMean, b.gpuMean, b.gpuMax, gpu, b.gpuN);
    }
  }

  lemma FoldRamKeeps(b: BucketStat, ram: real)
    requires During(b) && 0.0 <= ram <= 100.0
    ensures During(FoldRam(b, ram))
  {
    if b.n > 0 {
      ExtremesBracketMean(b.ramMean, b.ramMean, b.ramMax, ram, b.n);
    }
  }

  lemma FoldFlagsKeep(b: BucketStat, onAc: Option<bool>, idle: Option<bool>)
    requires During(b) && b.acN <= b.n && b.idleN <= b.n
    ensures During(FoldFlags(b, onAc, idle))
  {
  }

  // ---------------------------------------------------------------- what the figures mean

  /** A percentage is the number given, moved into 0 to 100. */
  lemma PercentIsClamped(v: Raw, default: real)
    requires 0.0 <= default <= 100.0
    ensures var p := Percent(v, default);
            && 0.0 <= p <= 100.0 && (v.None? ==> p == default)
            && (v.Some? && p < v.value ==> p == 100.0) && (v.Some? && v.value < p ==> p == 0.0)
  {
  }

  /** 0.95 to the k-th power. */
  function Decayed(k: nat): real {
    if k == 0 then 1.0 else 0.95 * Decayed(k - 1)
  }

  /** The weight of sample i of n: a twentieth, decayed once by each later sample; the first one weighs the rest. */
  function WeightOf(i: nat, n: nat): real
    requires i < n
  {
    if i == 0 then Decayed(n - 1) else 0.05 * Decayed(n - 1 - i)
  }

  function Weighted(xs: seq<real>): (w: seq<real>)
    ensures |w| == |xs|
  {
    seq(|xs|, i requires 0 <= i < |xs| => WeightOf(i, |xs|) * xs[i])
  }

  function WeightedMean(xs: seq<real>): real {
    SumR(Weighted(xs))
  }

  lemma {:induction false} SumScaled(a: seq<real>, b: seq<real>, c: real)
    requires |a| == |b| && forall i :: 0 <= i < |a| ==> b[i] == c * a[i]
    ensures SumR(b) == c * SumR(a)
  {
    if a != [] {
      SumScaled(a[1..], b[1..], c);
    }
  }

  lemma OneSampleMore(xs: seq<real>, x: real)
    ensures WeightedMean(xs + [x]) == if xs == [] then x else 0.95 * WeightedMean(xs) + 0.05 * x
  {
    var n, all := |xs|, Weighted(xs + [x]);
    if n == 0 {
      assert all[0] == Decayed(0) * x == x;
      assert SumR(all) == all[0] + SumR(all[1..]) && SumR(all[1..]) == 0.0;
    } else {
      forall i | 0 <= i < n
        ensures all[..n][i] == 0.95 * Weighted(xs)[i]
      {
        Reassociate(0.95, WeightOf(i, n), xs[i]);
      }
      SumScaled(Weighted(xs), all[..n], 0.95);
      assert all == all[..n] + [all[n]];
      SumRAppend(all[..n], [all[n]]);
    }
  }

  lemma Reassociate(a: real, b: real, c: real)
    ensures (a * b) * c == a * (b * c)
  {
  }

  /** The weights of the samples add up to 1. */
  lemma {:induction false} WeightsAddUp(n: nat)
    requires n > 0
    ensures WeightedMean(seq(n, _ => 1.0)) == 1.0
  {
    OneSampleMore(seq(n - 1, _ => 1.0), 1.0);
    assert seq(n, _ => 1.0) == seq(n - 1, _ => 1.0) + [1.0];
    if n > 1 {
      WeightsAddUp(n - 1);
    }
  }

  /** A bucket that recorded these observations. */
  function Recordings(os: seq<Observation>): BucketStat {
    if os == [] then EMPTY else Folded(Recordings(os[..|os| - 1]), os[|os| - 1])
  }

  /** No two observations in succession are more than 35 days apart. */
  ghost predicate Timely(os: seq<Observation>) {
    forall i :: 0 < i < |os| ==> os[i].ts - os[i - 1].ts <= 3_024_000.0
  }

  function CpuOf(os: seq<Observation>): seq<real> {
    if os == [] then [] else CpuOf(os[..|os| - 1]) + [Percent(os[|os| - 1].cpu, 0.0)]
  }

  function RamOf(os: seq<Observation>): seq<real> {
    if os == [] then [] else RamOf(os[..|os| - 1]) + [Percent(os[|os| - 1].ram, 0.0)]
  }

  /** The GPU samples; an observation may come without one. */
  function GpuOf(os: seq<Observation>): seq<real> {
    if os == [] then []
    else
      var init, gpu := GpuOf(os[..|os| - 1]), os[|os| - 1].gpu;
      if gpu.Some? then init + [Percent(gpu.value, 0.0)] else init
  }

  /** An indicator counts as 100 or 0 percent; an observation may come without it. */
  function FlagsOf(os: seq<Observation>, flag: Observation -> Option<bool>): seq<real> {
    if os == [] then []
    else
      var init, on := FlagsOf(os[..|os| - 1], flag), flag(os[|os| - 1]);
      if on == Some(true) then init + [100.0] else if on == Some(false) then init + [0.0] else init
  }

  function OnAc(o: Observation): Option<bool> {
    o.onAc
  }

  function Idle(o: Observation): Option<bool> {
    o.idle
  }

  /** Count and mean are those of the samples. */
  ghost predicate Averages(n: int, mean: real, xs: seq<real>) {
    n == |xs| && mean == WeightedMean(xs)
  }

  ghost predicate AveragesAll(b: BucketStat, os: seq<Observation>) {
    && Averages(b.n, b.cpuMean, CpuOf(os)) && Averages(b.n, b.ramMean, RamOf(os))
    && Averages(b.gpuN, b.gpuMean, GpuOf(os))
    && Averages(b.acN, b.acMean, FlagsOf(os, OnAc)) && Averages(b.idleN, b.idleMean, FlagsOf(os, Idle))
  }

  lemma AverageStep(n: int, mean: real, xs: seq<real>, x: real)
    requires Averages(n, mean, xs)
    ensures Averages(n + 1, Ewma(mean, x, n), xs + [x])
  {
    OneSampleMore(xs, x);
  }

  lemma FlagStep(n: int, mean: real, os: seq<Observation>, o: Observation, flag: Observation -> Option<bool>)
    requires Averages(n, mean, FlagsOf(os, flag))
    ensures var on, xs := flag(o), FlagsOf(os + [o], flag);
            if on.None? then Averages(n, mean, xs)
            else Averages(n + 1, Ewma(mean, if on.value then 100.0 else 0.0, n), xs)
  {
    assert (os + [o])[..|os|] == os;
    if flag(o).Some? {
      AverageStep(n, mean, FlagsOf(os, flag), if flag(o).value then 100.0 else 0.0);
    }
  }

  lemma GpuStep(n: int, mean: real, os: seq<Observation>, o: Observation)
    requires Averages(n, mean, GpuOf(os))
    ensures var xs := GpuOf(os + [o]);
            if o.gpu.None? then Averages(n, mean, xs)
            else Averages(n + 1, Ewma(mean, Percent(o.gpu.value, 0.0), n), xs)
  {
    assert (os + [o])[..|os|] == os;
    if o.gpu.Some? {
      AverageStep(n, mean, GpuOf(os), Percent(o.gpu.value, 0.0));
    }
  }

  lemma UsageStep(n: int, cpu: real, ram: real, os: seq<Observation>, o: Observation)
    requires Averages(n, cpu, CpuOf(os)) && Averages(n, ram, RamOf(os))
    ensures Averages(n + 1, Ewma(cpu, Percent(o.cpu, 0.0), n), CpuOf(os + [o]))
    ensures Averages(n + 1, Ewma(ram, Percent(o.ram, 0.0), n), RamOf(os + [o]))
  {
    assert (os + [o])[..|os|] == os;
    AverageStep(n, cpu, CpuOf(os), Percent(o.cpu, 0.0));
    AverageStep(n, ram, RamOf(os), Percent(o.ram, 0.0));
  }

  /** One observation more, in a bucket that has not aged out. */
  lemma ObservationStep(b: BucketStat, os: seq<Observation>, o: Observation)
    requires AveragesAll(b, os) && Base0(b, o.ts) == b
    ensures AveragesAll(Folded(b, o), os + [o])
  {
    UsageStep(b.n, b.cpuMean, b.ramMean, os, o);
    GpuStep(b.gpuN, b.gpuMean, os, o);
    FlagStep(b.acN, b.acMean, os, o, OnAc);
    FlagStep(b.idleN, b.idleMean, os, o, Idle);
  }

  /** Each mean is the weighted mean of the samples of its own kind, every later sample decaying the earlier ones by a
      twentieth, and each count is their number; an observation that lacks a kind leaves that one alone. */
  lemma {:induction false} MeansAreWeighted(os: seq<Observation>)
    requires Timely(os)
    ensures AveragesAll(Recordings(os), os)
    ensures os != [] ==> Recordings(os).updatedAt == os[|os| - 1].ts
  {
    if os != [] {
      var n := |os| - 1;
      MeansAreWeighted(os[..n]);
      assert n > 0 ==> os[..n][n - 1] == os[n - 1] && os[n].ts - os[n - 1].ts <= 3_024_000.0;
      ObservationStep(Recordings(os[..n]), os[..n], os[n]);
      assert os == os[..n] + [os[n]];
    }
  }

  /** The first observation of a bucket, or the first after more than 35 days, is all there is: it starts over. */
  lemma StartsOver(b: BucketStat, o: Observation)
    requires b.n > 0 && o.ts - b.updatedAt > 3_024_000.0
    ensures Folded(b, o) == Recordings([o])
    ensures var r := Recordings([o]);
            && r.n == 1 && r.cpuMean == r.cpuMax == r.cpuMin && r.ramMean == r.ramMax && r.gpuMean == r.gpuMax
            && r.updatedAt == o.ts
  {
    assert [o][..0] == [];
  }

  /** A peak relaxes by a fiftieth of its distance to the new mean, unless the sample is higher. */
  predicate Relaxes(before: real, sample: real, mean: real, after: real) {
    && after >= sample && after - mean >= 0.98 * (before - mean)
    && (after == sample || after - mean == 0.98 * (before - mean))
  }

  /** The peaks of a bucket relax, and its trough does so upside down. */
  lemma ExtremesRelax(b: BucketStat, o: Observation)
    requires b.n > 0 && o.ts - b.updatedAt <= 3_024_000.0
    ensures var r := Folded(b, o);
            && Relaxes(b.cpuMax, Percent(o.cpu, 0.0), r.cpuMean, r.cpuMax)
            && Relaxes(-b.cpuMin, -Percent(o.cpu, 0.0), -r.cpuMean, -r.cpuMin)
            && Relaxes(b.ramMax, Percent(o.ram, 0.0), r.ramMean, r.ramMax)
            && (o.gpu.Some? && b.gpuN != 0 ==> Relaxes(b.gpuMax, Percent(o.gpu.value, 0.0), r.gpuMean, r.gpuMax))
            && (o.gpu.None? ==> r.gpuMean == b.gpuMean && r.gpuMax == b.gpuMax)
  {
  }

  // ---------------------------------------------------------------- loading

  /** A bucket as found in a profile file: None is a missing key, Some(None) a malformed value. */
  datatype RawBucket = RawBucket(
    n: Option<Raw>, cpuMean: Raw, cpuMax: Raw, cpuMin: Raw, gpuMean: Raw, gpuMax: Raw, gpuN: Option<Raw>,
    ramMean: Raw, ramMax: Raw, acMean: Option<Raw>, idleMean: Option<Raw>, acN: Option<Raw>, idleN: Option<Raw>,
    updatedAt: Raw)

  /** `max(0, int(value))`, zero for a malformed value and `missing` for a missing one. */
  function Count(v: Option<Raw>, missing: int): int {
    match v
    case None => Max(0, missing)
    case Some(None) => 0
    case Some(Some(x)) => Max(0, Trunc(x))
  }

  function Given(v: Option<Raw>): Raw {
    match v case None => None case Some(x) => x
  }

  /** `_bucket_from_dict`. */
  function Loaded(r: RawBucket, gpuSupported: Option<bool>): BucketStat {
    var n := Min(MAX_SAMPLES, Count(r.n, 0));
    var cpuMean, gpuMean, ramMean := Percent(r.cpuMean, 0.0), Percent(r.gpuMean, 0.0), Percent(r.ramMean, 0.0);
    var gpuDefault :=
      if gpuSupported == Some(true) then n
      else if gpuSupported == Some(false) then 0
      else if gpuMean > 0.0 || Percent(r.gpuMax, 0.0) > 0.0 then n else 0;
    BucketStat(
      n, cpuMean, RMax(cpuMean, Percent(r.cpuMax, 0.0)), RMin(cpuMean, Percent(r.cpuMin, 100.0)),
      gpuMean, RMax(gpuMean, Percent(r.gpuMax, 0.0)), Min(Count(r.gpuN, gpuDefault), n),
      ramMean, RMax(ramMean, Percent(r.ramMax, 0.0)),
      Percent(Given(r.acMean), 0.0), Percent(Given(r.idleMean), 0.0),
      Min(Count(r.acN, if r.acMean.Some? then n else 0), n),
      Min(Count(r.idleN, if r.idleMean.Some? then n else 0), n),
      RMax(0.0, match r.updatedAt case None => 0.0 case Some(x) => x))
  }

  /** Loading repairs any dict, however wrong, into an envelope. */
  lemma LoadedIsEnvelope(r: RawBucket, gpuSupported: Option<bool>)
    ensures Envelope(Loaded(r, gpuSupported)) && Loaded(r, gpuSupported).n <= MAX_SAMPLES
  {
  }

  /** What a dict is loaded as: percentages clamped and in order, the count a whole number within the cap, the counts of
      the kinds at most that, and missing ones inferred as old files need it. */
  lemma LoadedFields(r: RawBucket, gpuSupported: Option<bool>)
    ensures var b := Loaded(r, gpuSupported);
            && b.cpuMean == Percent(r.cpuMean, 0.0) && b.gpuMean == Percent(r.gpuMean, 0.0)
            && b.ramMean == Percent(r.ramMean, 0.0)
            && b.cpuMax >= b.cpuMean && b.cpuMin <= b.cpuMean && b.gpuMax >= b.gpuMean && b.ramMax >= b.ramMean
            && (b.cpuMax == b.cpuMean || b.cpuMax == Percent(r.cpuMax, 0.0)) && b.cpuMax >= Percent(r.cpuMax, 0.0)
            && (b.cpuMin == b.cpuMean || b.cpuMin == Percent(r.cpuMin, 100.0)) && b.cpuMin <= Percent(r.cpuMin, 100.0)
            && (b.gpuMax == b.gpuMean || b.gpuMax == Percent(r.gpuMax, 0.0)) && b.gpuMax >= Percent(r.gpuMax, 0.0)
            && (b.ramMax == b.ramMean || b.ramMax == Percent(r.ramMax, 0.0)) && b.ramMax >= Percent(r.ramMax, 0.0)
            && 0 <= b.n <= 10_000_000
            && (forall x :: r.n == Some(Some(x)) && 0.0 <= x < 10_000_001.0 ==> b.n as real <= x < b.n as real + 1.0)
            && (r.gpuN.None? && gpuSupported == Some(true) ==> b.gpuN == b.n)
            && (r.gpuN.None? && gpuSupported == Some(false) ==> b.gpuN == 0)
            && (r.gpuN.None? && gpuSupported.None? ==> b.gpuN == if b.gpuMax > 0.0 then b.n else 0)
            && (r.acN.None? ==> b.acN == if r.acMean.Some? then b.n else 0)
            && (r.idleN.None? ==> b.idleN == if r.idleMean.Some? then b.n else 0)
  {
  }

  /** `asdict(bucket)`. */
  function Saved(b: BucketStat): RawBucket {
    RawBucket(
      Some(Some(b.n as real)), Some(b.cpuMean), Some(b.cpuMax), Some(b.cpuMin), Some(b.gpuMean), Some(b.gpuMax),
      Some(Some(b.gpuN as real)), Some(b.ramMean), Some(b.ramMax), Some(Some(b.acMean)), Some(Some(b.idleMean)),
      Some(Some(b.acN as real)), Some(Some(b.idleN as real)), Some(b.updatedAt))
  }

  /** A saved bucket comes back unchanged exactly when it is within the sample cap, not dated before the epoch, and its
      minimum is not above its mean, which only an empty bucket's can be. */
  lemma ReloadKeepsBucketIff(b: BucketStat, gpuSupported: Option<bool>)
    requires Envelope(b)
    ensures Loaded(Saved(b), gpuSupported) == b <==>
              b.n <= MAX_SAMPLES && 0.0 <= b.updatedAt && b.cpuMin <= b.cpuMean
    ensures b.n > 0 ==> b.cpuMin <= b.cpuMean
  {
  }

  /** The instance that fails: a fresh bucket, whose minimum of 100 is pulled down to its mean of 0. */
  lemma ReloadChangesFreshBucket(gpuSupported: Option<bool>)
    ensures Loaded(Saved(EMPTY), gpuSupported) == EMPTY.(cpuMin := 0.0) != EMPTY
  {
  }

  /** Whatever a bucket was loaded from, saving and loading it again changes nothing. */
  lemma ReloadIsIdempotent(r: RawBucket, gpu: Option<bool>, gpu': Option<bool>)
    ensures Loaded(Saved(Loaded(r, gpu)), gpu') == Loaded(r, gpu)
  {
    LoadedIsEnvelope(r, gpu);
    ReloadKeepsBucketIff(Loaded(r, gpu), gpu');
  }

  /** The change is invisible later: an empty bucket records the same whether or not it was reloaded. */
  lemma ReloadOfEmptyIsInvisible(b: BucketStat, gpuSupported: Option<bool>, o: Observation)
    requires Envelope(b) && b.n == 0
    ensures Folded(Loaded(Saved(b), gpuSupported), o) == Folded(b, o)
  {
  }

  // ---------------------------------------------------------------- the profiler

  function Slot(weekday: nat, hour: nat): (i: nat)
    ensures i < BUCKETS
  {
    (weekday * 24 + hour) % BUCKETS
  }

  /** Every hour of the week has a bucket of its own. */
  lemma OneSlotPerHour(weekday: nat, hour: nat, weekday': nat, hour': nat)
    requires weekday < 7 && hour < 24 && weekday' < 7 && hour' < 24
    ensures Slot(weekday, hour) == 24 * weekday + hour < 168
    ensures Slot(weekday, hour) == Slot(weekday', hour') ==> weekday == weekday' && hour == hour'
  {
  }

  /** A profile file: absent, not readable as a profile at all, or its list of buckets (None is not a dict). */
  datatype ProfileFile = Missing | Unreadable | Profile(raw: seq<Option<RawBucket>>, gpuSupported: Option<bool>)

  /** Bucket i after loading the file. */
  function AfterLoad(file: ProfileFile, i: nat, b: BucketStat): BucketStat {
    match file
    case Missing => b
    case Unreadable => EMPTY
    case Profile(raw, gpu) => if i < |raw| && raw[i].Some? then Loaded(raw[i].value, gpu) else b
  }

  class UsageProfiler {
    var buckets: array<BucketStat>

    ghost predicate Valid()
      reads this, buckets
    {
      buckets.Length == BUCKETS && forall i :: 0 <= i < BUCKETS ==> Envelope(buckets[i])
    }

    constructor ()
      ensures Valid() && fresh(buckets) && forall i :: 0 <= i < BUCKETS ==> buckets[i] == EMPTY
    {
      buckets := new BucketStat[BUCKETS](_ => EMPTY);
    }

    /** Loads a profile file bucket by bucket, leaving those without a dict alone; an unreadable or malformed file
        empties them all. */
    method Load(file: ProfileFile)
      requires Valid()
      modifies buckets
      ensures Valid() && buckets == old(buckets)
      ensures forall i :: 0 <= i < BUCKETS ==> buckets[i] == AfterLoad(file, i, old(buckets[i]))
    {
      for i := 0 to BUCKETS
        invariant Valid() && buckets == old(buckets)
        invariant forall k :: 0 <= k < BUCKETS ==>
                    buckets[k] == if k < i then AfterLoad(file, k, old(buckets[k])) else old(buckets[k])
      {
        match file {
          case Missing =>
          case Unreadable => buckets[i] := EMPTY;
          case Profile(raw, gpu) =>
            if i < |raw| && raw[i].Some? {
              LoadedIsEnvelope(raw[i].value, gpu);
              buckets[i] := Loaded(raw[i].value, gpu);
            }
        }
      }
    }

    /** Fold one observation into the bucket of its hour of the week; the others do not change. */
    method Record(o: Observation, weekday: nat, hour: nat)
      requires Valid()
      modifies buckets
      ensures Valid() && buckets == old(buckets)
      ensures buckets[..] == old(buckets[..])[Slot(weekday, hour) := Folded(old(buckets[Slot(weekday, hour)]), o)]
    {
      var i := Slot(weekday, hour);
      FoldKeepsEnvelope(buckets[i], o);
      buckets[i] := Fold(buckets[i], o);
    }
  }

  /** The updates of one record, field by field in the order of the source. */
  method Fold(bucket: BucketStat, o: Observation) returns (b: BucketStat)
    ensures b == Folded(bucket, o)
  {
    b := bucket;
    var cpu, ram := Percent(o.cpu, 0.0), Percent(o.ram, 0.0);
    if b.n > 0 && o.ts - b.updatedAt > STALE_SECONDS {
      b := EMPTY;
    }
    b := b.(cpuMean := Ewma(b.cpuMean, cpu, b.n));
    b := b.(cpuMax := if b.n != 0 then RollMax(b.cpuMax, cpu, b.cpuMean) else cpu);
    b := b.(cpuMin := if b.n != 0 then RollMin(b.cpuMin, cpu, b.cpuMean) else cpu);
    if o.gpu.Some? {
      var gpu := Percent(o.gpu.value, 0.0);
      b := b.(gpuMean := Ewma(b.gpuMean, gpu, b.gpuN));
      b := b.(gpuMax := if b.gpuN != 0 then RollMax(b.gpuMax, gpu, b.gpuMean) else gpu);
      b := b.(gpuN := b.gpuN + 1);
    }
    b := b.(ramMean := Ewma(b.ramMean, ram, b.n));
    b := b.(ramMax := if b.n != 0 then RollMax(b.ramMax, ram, b.ramMean) else ram);
    if o.onAc.Some? {
      b := b.(acMean := Ewma(b.acMean, Indicator(o.onAc.value), b.acN), acN := b.acN + 1);
    }
    if o.idle.Some? {
      b := b.(idleMean := Ewma(b.idleMean, Indicator(o.idle.value), b.idleN), idleN := b.idleN + 1);
    }
    b := b.(n := b.n + 1, updatedAt := o.ts);
  }

  /** One bucket's life: observations, reloads of what was saved, and loads of any other file, in any order. */
  datatype Happening =
    | Observe(o: Observation)
    | Reload(gpuSupported: Option<bool>)
    | LoadFile(file: ProfileFile, i: nat)

  function Life(events: seq<Happening>): BucketStat {
    if events == [] then EMPTY
    else
      var b := Life(events[..|events| - 1]);
      match events[|events| - 1]
      case Observe(o) => Folded(b, o)
      case Reload(gpu) => Loaded(Saved(b), gpu)
      case LoadFile(file, i) => AfterLoad(file, i, b)
  }

  /** The envelope holds after any sequence of records, stale resets and reloads from any dict. */
  lemma {:induction false} EnvelopeHoldsForever(events: seq<Happening>)
    ensures Envelope(Life(events))
  {
    if events != [] {
      var b := Life(events[..|events| - 1]);
      EnvelopeHoldsForever(events[..|events| - 1]);
      match events[|events| - 1]
      case Observe(o) => FoldKeepsEnvelope(b, o);
      case Reload(gpu) => LoadedIsEnvelope(Saved(b), gpu);
      case LoadFile(file, i) =>
        if file.Profile? && i < |file.raw| && file.raw[i].Some? {
          LoadedIsEnvelope(file.raw[i].value, file.gpuSupported);
        }
    }
  }
}
