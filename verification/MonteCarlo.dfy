/** Mergeable portfolio risk: `_mc_chunk`, `_montecarlo` and `aggregate_montecarlo`. */
module MonteCarlo {
  import opened Base
  import opened Partition
  import opened Jobkit

  /** A histogram: its bounds, its number of bins and the bin a return falls in before clamping. */
  datatype Bins = Bins(lo: real, hi: real, n: nat, raw: real -> int)

  function Width(lo: real, hi: real, n: nat): real {
    if n == 0 then 1.0 else (hi - lo) / n as real
  }

  /** The histogram of a launch. */
  function MakeBins(lo: real, hi: real, n: nat): Bins {
    var width := Width(lo, hi, n);
    Bins(lo, hi, n, ret => if width != 0.0 then Trunc((ret - lo) / width) else 0)
  }

  function Bucket(b: Bins, ret: real): (i: nat)
    requires b.n > 0
    ensures i < b.n
  {
    Min(b.n - 1, Max(0, (b.raw)(ret)))
  }

  // ---------------------------------------------------------------- moments and histogram of a list of returns

  datatype Stats = Stats(count: nat, total: real, totalSq: real, worst: real, hist: seq<int>)

  function NoPaths(b: Bins): Stats {
    Stats(0, 0.0, 0.0, 0.0, seq(b.n, _ => 0))
  }

  function Record1(b: Bins, s: Stats, ret: real): (r: Stats)
    requires b.n > 0 && |s.hist| == b.n
    ensures |r.hist| == b.n
  {
    var i := Bucket(b, ret);
    Stats(s.count + 1, s.total + ret, s.totalSq + Square(ret), RMin(s.worst, ret), s.hist[i := s.hist[i] + 1])
  }

  function StatsOf(b: Bins, rets: seq<real>): (s: Stats)
    requires b.n > 0
    ensures |s.hist| == b.n
  {
    if rets == [] then NoPaths(b) else Record1(b, StatsOf(b, rets[..|rets| - 1]), rets[|rets| - 1])
  }

  function AddHist(h: seq<int>, v: seq<int>): (r: seq<int>)
    ensures |r| == |h|
  {
    seq(|h|, i requires 0 <= i < |h| => h[i] + if i < |v| then v[i] else 0)
  }

  function Combine(s: Stats, t: Stats): Stats {
    Stats(s.count + t.count, s.total + t.total, s.totalSq + t.totalSq, RMin(s.worst, t.worst), AddHist(s.hist, t.hist))
  }

  lemma CombineLaws(s: Stats, t: Stats, u: Stats)
    requires |s.hist| == |t.hist| == |u.hist|
    ensures Combine(s, t) == Combine(t, s)
    ensures Combine(Combine(s, t), u) == Combine(s, Combine(t, u))
  {
  }

  lemma RecordCombines(b: Bins, s: Stats, t: Stats, ret: real)
    requires b.n > 0 && |s.hist| == |t.hist| == b.n
    ensures Combine(s, Record1(b, t, ret)) == Record1(b, Combine(s, t), ret)
  {
    assert Combine(s, Record1(b, t, ret)).hist == Record1(b, Combine(s, t), ret).hist;
  }

  lemma {:induction false} CountAndSign(b: Bins, rets: seq<real>)
    requires b.n > 0
    ensures var s := StatsOf(b, rets);
            && s.count == |rets| && s.worst <= 0.0 && 0.0 <= s.totalSq
            && Sum(s.hist) == |rets| && forall i :: 0 <= i < b.n ==> 0 <= s.hist[i]
  {
    if rets == [] {
      SumZero(NoPaths(b).hist);
    } else {
      var init, last := rets[..|rets| - 1], rets[|rets| - 1];
      CountAndSign(b, init);
      assert Square(last) >= 0.0;
      var h := StatsOf(b, init).hist;
      SumUpdate(h, Bucket(b, last), h[Bucket(b, last)] + 1);
    }
  }

  lemma {:induction false} SumZero(s: seq<int>)
    requires forall i :: 0 <= i < |s| ==> s[i] == 0
    ensures Sum(s) == 0
  {
    if s != [] {
      SumZero(s[1..]);
    }
  }

  /** Statistics of two simulations put together are the statistics of each, combined. */
  lemma {:induction false} StatsAppend(b: Bins, xs: seq<real>, ys: seq<real>)
    requires b.n > 0
    ensures StatsOf(b, xs + ys) == Combine(StatsOf(b, xs), StatsOf(b, ys))
  {
    if ys == [] {
      assert xs + ys == xs;
      CountAndSign(b, xs);
      assert Combine(StatsOf(b, xs), NoPaths(b)).hist == StatsOf(b, xs).hist;
    } else {
      var init, last := ys[..|ys| - 1], ys[|ys| - 1];
      assert (xs + ys)[..|xs + ys| - 1] == xs + init;
      StatsAppend(b, xs, init);
      RecordCombines(b, StatsOf(b, xs), StatsOf(b, init), last);
    }
  }

  /** ... and do not depend on the order of the paths. */
  lemma {:induction false} StatsAnyOrder(b: Bins, xs: seq<real>, ys: seq<real>)
    requires b.n > 0 && multiset(xs) == multiset(ys)
    ensures StatsOf(b, xs) == StatsOf(b, ys)
  {
    if xs == [] {
      assert multiset(ys) == multiset{};
      assert ys == [];
    } else {
      var k := RemoveFirst(xs, ys);
      var front, back := ys[..k], ys[k + 1..];
      StatsAnyOrder(b, xs[1..], front + back);
      StatsSwap(b, [xs[0]], front, back);
      assert xs == [xs[0]] + xs[1..];
      assert ys == front + ([xs[0]] + back);
      StatsAppend(b, [xs[0]], xs[1..]);
      StatsAppend(b, [xs[0]], front + back);
    }
  }

  lemma StatsSwap(b: Bins, x: seq<real>, front: seq<real>, back: seq<real>)
    requires b.n > 0
    ensures StatsOf(b, front + (x + back)) == StatsOf(b, x + (front + back))
  {
    StatsAppend(b, front, x + back);
    StatsAppend(b, x, back);
    StatsAppend(b, x, front + back);
    StatsAppend(b, front, back);
    CombineLaws(StatsOf(b, front), StatsOf(b, x), StatsOf(b, back));
    CombineLaws(StatsOf(b, x), StatsOf(b, front), StatsOf(b, back));
  }

  function Square(x: real): real { x * x }

  function Squares(rets: seq<real>): (s: seq<real>)
    ensures |s| == |rets|
  {
    seq(|rets|, i requires 0 <= i < |rets| => Square(rets[i]))
  }

  lemma {:induction false} MomentsAreSums(b: Bins, rets: seq<real>)
    requires b.n > 0
    ensures StatsOf(b, rets).total == SumR(rets) && StatsOf(b, rets).totalSq == SumR(Squares(rets))
  {
    if rets != [] {
      var n := |rets| - 1;
      MomentsAreSums(b, rets[..n]);
      assert rets[..n + 1] == rets && Squares(rets)[..n + 1] == Squares(rets);
      SumRPrefix(rets, n);
      SumRPrefix(Squares(rets), n);
      assert Squares(rets)[..n] == Squares(rets[..n]);
    }
  }

  /** The squared deviations from `x`, summed, of n numbers with sum t and sum of squares q. */
  function Spread(n: real, t: real, q: real, x: real): real {
    q - 2.0 * (x * t) + n * (x * x)
  }

  /** Cauchy-Schwarz step: the squared deviations from any x are non-negative. */
  lemma {:induction false} Deviations(rets: seq<real>, x: real)
    ensures Spread(|rets| as real, SumR(rets), SumR(Squares(rets)), x) >= 0.0
  {
    if rets != [] {
      Deviations(rets[1..], x);
      assert Squares(rets)[1..] == Squares(rets[1..]);
      var r, t, n := rets[0], SumR(rets[1..]), |rets[1..]| as real;
      assert (r - x) * (r - x) == r * r - 2.0 * (x * r) + x * x;
      assert (r - x) * (r - x) >= 0.0;
      assert x * (r + t) == x * r + x * t;
      assert (n + 1.0) * (x * x) == n * (x * x) + x * x;
    }
  }

  function Mean(s: Stats): real {
    if s.count == 0 then 0.0 else s.total / s.count as real
  }

  function Variance(s: Stats): real {
    if s.count == 0 then 0.0 else s.totalSq / s.count as real - Mean(s) * Mean(s)
  }

  lemma SpreadNonNegative(b: Bins, rets: seq<real>, x: real)
    requires b.n > 0
    ensures var s := StatsOf(b, rets); Spread(s.count as real, s.total, s.totalSq, x) >= 0.0
  {
    MomentsAreSums(b, rets);
    CountAndSign(b, rets);
    Deviations(rets, x);
  }

  /** The variance is never negative, so the tile's `max(0.0, variance)` never changes it. */
  lemma VarianceNonNegative(b: Bins, rets: seq<real>)
    requires b.n > 0
    ensures Variance(StatsOf(b, rets)) >= 0.0
  {
    var s := StatsOf(b, rets);
    SpreadNonNegative(b, rets, Mean(s));
    MeanSquareDominates(s);
  }

  lemma MeanSquareDominates(s: Stats)
    requires Spread(s.count as real, s.total, s.totalSq, Mean(s)) >= 0.0
    ensures Variance(s) >= 0.0
  {
    if s.count > 0 {
      QuotientOfSpread(s.count as real, s.total, s.totalSq, Mean(s));
    }
  }

  lemma QuotientOfSpread(n: real, t: real, q: real, m: real)
    requires n > 0.0 && m == t / n && Spread(n, t, q, m) >= 0.0
    ensures q / n - m * m >= 0.0
  {
    assert t == m * n;
    assert m * t == n * (m * m);
    assert q / n - m * m == (q - n * (m * m)) / n;
  }

  /** The squared distances of the returns from x. */
  function Distances(rets: seq<real>, x: real): (d: seq<real>)
    ensures |d| == |rets|
  {
    seq(|rets|, i requires 0 <= i < |rets| => Square(rets[i] - x))
  }

  lemma {:induction false} SpreadIsDistances(rets: seq<real>, x: real)
    ensures Spread(|rets| as real, SumR(rets), SumR(Squares(rets)), x) == SumR(Distances(rets, x))
  {
    if rets != [] {
      SpreadIsDistances(rets[1..], x);
      assert Squares(rets)[1..] == Squares(rets[1..]) && Distances(rets, x)[1..] == Distances(rets[1..], x);
      SpreadStep(|rets[1..]| as real, SumR(rets[1..]), SumR(Squares(rets[1..])), rets[0], x);
    }
  }

  lemma SpreadStep(n: real, t: real, q: real, r: real, x: real)
    ensures Spread(n + 1.0, r + t, Square(r) + q, x) == Square(r - x) + Spread(n, t, q, x)
  {
    assert Square(r - x) == Square(r) - 2.0 * (x * r) + x * x;
    assert x * (r + t) == x * r + x * t;
    assert (n + 1.0) * (x * x) == n * (x * x) + x * x;
  }

  lemma MeanTimesCount(n: real, t: real, m: real)
    requires n > 0.0 && m == t / n
    ensures m * n == t && Spread(n, t, 0.0, m) == -(n * (m * m))
  {
    assert m * n == t;
    assert m * t == n * (m * m);
  }

  lemma VarianceTimesCount(n: real, t: real, q: real, m: real)
    requires n > 0.0 && m == t / n
    ensures (q / n - m * m) * n == Spread(n, t, q, m)
  {
    MeanTimesCount(n, t, m);
    assert q / n * n == q;
    assert (q / n - m * m) * n == q / n * n - n * (m * m);
  }

  lemma MomentsTimesCount(s: Stats) returns (n: real, m: real, v: real)
    requires s.count > 0
    ensures n == s.count as real && m == Mean(s) && v == Variance(s)
    ensures m * n == s.total && v * n == Spread(n, s.total, s.totalSq, m)
  {
    n, m, v := s.count as real, Mean(s), Variance(s);
    MeanTimesCount(n, s.total, m);
    VarianceTimesCount(n, s.total, s.totalSq, m);
  }

  /** What the moments mean: the mean times the number of paths is the sum of their returns, and the variance times that
      number is the sum of the squared distances from the mean. */
  lemma MomentsOfPaths(b: Bins, rets: seq<real>) returns (n: real, m: real, v: real)
    requires b.n > 0 && rets != []
    ensures n == |rets| as real && m == Mean(StatsOf(b, rets)) && v == Variance(StatsOf(b, rets))
    ensures m * n == SumR(rets) && v * n == SumR(Distances(rets, m))
  {
    var s := StatsOf(b, rets);
    CountAndSign(b, rets);
    MomentsAreSums(b, rets);
    n, m, v := MomentsTimesCount(s);
    SpreadIsDistances(rets, m);
  }

  /** The worst return is the least one, or zero if none is negative. */
  lemma {:induction false} WorstIsLeast(b: Bins, rets: seq<real>)
    requires b.n > 0
    ensures var worst := StatsOf(b, rets).worst;
            worst <= 0.0 && (forall r :: r in rets ==> worst <= r) && (worst < 0.0 ==> worst in rets)
  {
    if rets != [] {
      var n := |rets| - 1;
      WorstIsLeast(b, rets[..n]);
      assert rets == rets[..n] + [rets[n]];
    }
  }

  // ---------------------------------------------------------------- what a bin holds

  /** Bin k begins at its edge, and bin k - 1 ends there. */
  function Edge(lo: real, width: real, k: int): real {
    lo + k as real * width
  }

  /** `ret` lies in bin i of n: from its lower edge up to its upper edge, which it does not reach; the first bin takes
      whatever is below it as well, and the last whatever is above. */
  ghost predicate InBin(lo: real, width: real, n: nat, i: nat, ret: real) {
    && (i > 0 ==> Edge(lo, width, i) <= ret)
    && (i < n - 1 ==> ret < Edge(lo, width, i + 1))
  }

  lemma EdgesRise(lo: real, width: real, i: int, j: int)
    requires width > 0.0 && i <= j
    ensures Edge(lo, width, i) <= Edge(lo, width, j)
    ensures i < j ==> Edge(lo, width, i) < Edge(lo, width, j)
  {
    assert (j - i) as real * width >= 0.0;
    assert Edge(lo, width, j) - Edge(lo, width, i) == (j - i) as real * width;
  }

  lemma OuterEdges(lo: real, hi: real, n: nat)
    requires n > 0
    ensures Edge(lo, (hi - lo) / n as real, 0) == lo && Edge(lo, (hi - lo) / n as real, n) == hi
  {
  }

  lemma NextEdge(lo: real, width: real, i: int)
    ensures Edge(lo, width, i + 1) == Edge(lo, width, i) + width
  {
  }

  function Widths(k: real, width: real): real {
    k * width
  }

  lemma WidthsGrow(a: real, b: real, width: real)
    requires width > 0.0 && a < b
    ensures Widths(a, width) < Widths(b, width)
  {
    assert (b - a) * width > 0.0;
  }

  lemma WidthsOfQuotient(x: real, width: real)
    requires width > 0.0
    ensures Widths(x / width, width) == x && (x >= 0.0 <==> x / width >= 0.0)
  {
  }

  lemma WholePart(q: real)
    requires 0.0 <= q
    ensures 0 <= Trunc(q) && Trunc(q) as real <= q < (Trunc(q) + 1) as real
  {
  }

  /** The whole number of widths between `lo` and `ret`. */
  lemma QuotientBracket(lo: real, ret: real, width: real)
    requires width > 0.0 && ret >= lo
    ensures var k := Trunc((ret - lo) / width); 0 <= k && Edge(lo, width, k) <= ret < Edge(lo, width, k + 1)
  {
    var q := (ret - lo) / width;
    WidthsOfQuotient(ret - lo, width);
    WholePart(q);
    if Trunc(q) as real < q {
      WidthsGrow(Trunc(q) as real, q, width);
    }
    WidthsGrow(q, (Trunc(q) + 1) as real, width);
    assert Edge(lo, width, Trunc(q)) == lo + Widths(Trunc(q) as real, width);
    assert Edge(lo, width, Trunc(q) + 1) == lo + Widths((Trunc(q) + 1) as real, width);
  }

  lemma BelowTheBounds(lo: real, ret: real, width: real)
    requires width > 0.0 && ret < lo
    ensures Trunc((ret - lo) / width) <= 0 && ret < Edge(lo, width, 1)
  {
    WidthsOfQuotient(ret - lo, width);
  }

  lemma BucketHolds(b: Bins, lo: real, hi: real, n: nat, ret: real)
    requires lo < hi && n > 0 && b == MakeBins(lo, hi, n)
    ensures InBin(lo, (hi - lo) / n as real, n, Bucket(b, ret), ret)
  {
    var width := (hi - lo) / n as real;
    var k := Trunc((ret - lo) / width);
    assert width > 0.0 && Bucket(b, ret) == Min(n - 1, Max(0, k));
    if ret < lo {
      BelowTheBounds(lo, ret, width);
    } else {
      QuotientBracket(lo, ret, width);
      if n - 1 < k {
        EdgesRise(lo, width, n - 1, k);
      }
    }
  }

  lemma BinsAreDisjoint(lo: real, width: real, n: nat, i: nat, j: nat, ret: real)
    requires width > 0.0 && i < j < n
    ensures !(InBin(lo, width, n, i, ret) && InBin(lo, width, n, j, ret))
  {
    EdgesRise(lo, width, i + 1, j);
  }

  /** With bounds in order a return is counted in exactly the bin it lies in. */
  lemma BucketIsBin(lo: real, hi: real, n: nat, ret: real, i: nat)
    requires lo < hi && i < n
    ensures Bucket(MakeBins(lo, hi, n), ret) == i <==> InBin(lo, (hi - lo) / n as real, n, i, ret)
  {
    var b, width := MakeBins(lo, hi, n), (hi - lo) / n as real;
    assert width > 0.0;
    BucketHolds(b, lo, hi, n, ret);
    if Bucket(b, ret) < i {
      BinsAreDisjoint(lo, width, n, Bucket(b, ret), i, ret);
    } else if i < Bucket(b, ret) {
      BinsAreDisjoint(lo, width, n, i, Bucket(b, ret), ret);
    }
  }

  /** ... so a return within the bounds lies between the edges of its bin; others go to the bin at their end. */
  lemma BinOfReturn(lo: real, hi: real, n: nat, ret: real)
    requires lo < hi && n > 0
    ensures var i, width := Bucket(MakeBins(lo, hi, n), ret), (hi - lo) / n as real;
            && (lo <= ret < hi ==> lo + i as real * width <= ret < lo + (i + 1) as real * width)
            && (ret < lo ==> i == 0) && (hi <= ret ==> i == n - 1)
  {
    var i, width := Bucket(MakeBins(lo, hi, n), ret), (hi - lo) / n as real;
    assert width > 0.0;
    BucketHolds(MakeBins(lo, hi, n), lo, hi, n, ret);
    OuterEdges(lo, hi, n);
    EdgesRise(lo, width, 0, i);
    EdgesRise(lo, width, i + 1, n);
    assert Edge(lo, width, i) == lo + i as real * width && Edge(lo, width, i + 1) == lo + (i + 1) as real * width;
  }

  /** Reversed bounds bin a return as the negated bounds, which are in order, bin the negated return; a histogram
      without width has everything in its first bin. */
  lemma ReversedBinsMirror(lo: real, hi: real, n: nat, ret: real)
    requires n > 0
    ensures hi < lo ==> Bucket(MakeBins(lo, hi, n), ret) == Bucket(MakeBins(-lo, -hi, n), -ret)
    ensures hi == lo ==> Bucket(MakeBins(lo, hi, n), ret) == 0
  {
    if hi < lo {
      var width := (hi - lo) / n as real;
      assert (-hi - -lo) / n as real == -width;
      assert (ret - lo) / width == (-ret - -lo) / -width;
    }
  }

  /** The paths whose return lies in bin i. */
  ghost function PathsIn(lo: real, width: real, n: nat, i: nat, rets: seq<real>): set<nat> {
    set k: nat | k < |rets| && InBin(lo, width, n, i, rets[k])
  }

  /** Each entry of a histogram is the number of paths whose return lies in that bin. */
  lemma {:induction false} HistogramCounts(lo: real, hi: real, n: nat, rets: seq<real>, i: nat)
    requires lo < hi && i < n
    ensures StatsOf(MakeBins(lo, hi, n), rets).hist[i] == |PathsIn(lo, (hi - lo) / n as real, n, i, rets)|
  {
    var width := (hi - lo) / n as real;
    if rets == [] {
      assert PathsIn(lo, width, n, i, rets) == {};
    } else {
      var last := |rets| - 1;
      var before := PathsIn(lo, width, n, i, rets[..last]);
      HistogramCounts(lo, hi, n, rets[..last], i);
      BucketIsBin(lo, hi, n, rets[last], i);
      assert PathsIn(lo, width, n, i, rets)
          == if InBin(lo, width, n, i, rets[last]) then before + {last} else before;
    }
  }

  // ---------------------------------------------------------------- the tile executor

  function Draws(w: World, m: Market, stream: int, n: nat): (r: seq<real>)
    ensures |r| == n
  {
    seq(n, k requires 0 <= k < n => (w.path)(m, stream, k))
  }

  lemma StatsStep(b: Bins, rets: seq<real>, k: nat)
    requires b.n > 0 && k < |rets|
    ensures StatsOf(b, rets[..k + 1]) == Record1(b, StatsOf(b, rets[..k]), rets[k])
  {
    assert rets[..k + 1][..k] == rets[..k];
  }

  method McChunk(w: World, m: Market, b: Bins, stream: int, n: nat) returns (s: Stats)
    requires b.n > 0
    ensures s == StatsOf(b, Draws(w, m, stream, n))
  {
    var hist := seq(b.n, _ => 0);
    var total, totalSq, worst := 0.0, 0.0, 0.0;
    var rets := Draws(w, m, stream, n);
    for k := 0 to n
      invariant |hist| == b.n
      invariant Stats(k, total, totalSq, worst, hist) == StatsOf(b, rets[..k])
    {
      StatsStep(b, rets, k);
      var ret := (w.path)(m, stream, k);
      total := total + ret;
      totalSq := totalSq + Square(ret);
      if ret < worst {
        worst := ret;
      }
      var bucket := Bucket(b, ret);
      hist := hist[bucket := hist[bucket] + 1];
    }
    assert rets[..n] == rets;
    s := Stats(n, total, totalSq, worst, hist);
  }

  /** One chunk: its random stream and its number of paths. */
  datatype Task = Task(stream: int, paths: nat)

  function Stream(seed: int, c: int): int {
    seed * 1_000_003 + c
  }

  /** Chunks of one launch never share a random stream, up to a million chunks a tile. */
  lemma StreamsDiffer(seed: int, c: nat, seed': int, c': nat)
    requires c < 1_000_003 && c' < 1_000_003 && Stream(seed, c) == Stream(seed', c')
    ensures seed == seed' && c == c'
  {
    assert (seed - seed') * 1_000_003 == c' - c;
  }

  function TaskList(seed: int, base: nat, rem: nat, n: nat): (t: seq<Task>)
    ensures forall i :: 0 <= i < |t| ==> t[i].paths > 0
  {
    if n == 0 then []
    else
      TaskList(seed, base, rem, n - 1)
      + if LaidSize(base, rem, n - 1) > 0 then [Task(Stream(seed, n - 1), LaidSize(base, rem, n - 1))] else []
  }

  function ChunkDraws(w: World, m: Market, tasks: seq<Task>): (r: seq<seq<real>>)
    ensures |r| == |tasks|
  {
    seq(|tasks|, i requires 0 <= i < |tasks| => Draws(w, m, tasks[i].stream, tasks[i].paths))
  }

  /** The paths a list of chunks simulates, one chunk after the other. */
  function Simulated(w: World, m: Market, tasks: seq<Task>): seq<real> {
    Flatten(ChunkDraws(w, m, tasks))
  }

  function McChunks(n: nat, cores: nat): nat
    requires cores > 0
  {
    Max(cores, Min(2048, (n + 1999) / 2000))
  }

  function TileTasks(seed: int, n: nat, cores: nat): seq<Task>
    requires cores > 0
  {
    var chunks := McChunks(n, cores);
    TaskList(seed, n / chunks, n % chunks, chunks)
  }

  /** Chunk k of a tile has the stream of its own number, `index[k]`. */
  ghost predicate Numbered(seed: int, t: seq<Task>, n: nat, index: seq<nat>) {
    && |index| == |t| && (forall k :: 0 <= k < |t| ==> index[k] < n && t[k].stream == Stream(seed, index[k]))
    && (forall k, l :: 0 <= k < l < |t| ==> index[k] < index[l])
  }

  lemma {:induction false} TasksAreNumbered(seed: int, base: nat, rem: nat, n: nat) returns (index: seq<nat>)
    ensures Numbered(seed, TaskList(seed, base, rem, n), n, index)
  {
    if n == 0 {
      return [];
    }
    var init := TasksAreNumbered(seed, base, rem, n - 1);
    index := init + if LaidSize(base, rem, n - 1) > 0 then [n - 1] else [];
  }

  lemma TileIsNumbered(seed: int, n: nat, cores: nat) returns (index: seq<nat>)
    requires 0 < cores <= 1_000_003
    ensures Numbered(seed, TileTasks(seed, n, cores), 1_000_003, index)
  {
    var chunks := McChunks(n, cores);
    index := TasksAreNumbered(seed, n / chunks, n % chunks, chunks);
  }

  /** Chunks of tiles with different seeds never share a stream. */
  lemma TilesDrawApart(seed: int, n: nat, cores: nat, a: nat, seed': int, n': nat, cores': nat, b: nat)
    requires 0 < cores <= 1_000_003 && 0 < cores' <= 1_000_003 && seed != seed'
    requires a < |TileTasks(seed, n, cores)| && b < |TileTasks(seed', n', cores')|
    ensures TileTasks(seed, n, cores)[a].stream != TileTasks(seed', n', cores')[b].stream
  {
    var index := TileIsNumbered(seed, n, cores);
    var index' := TileIsNumbered(seed', n', cores');
    if Stream(seed, index[a]) == Stream(seed', index'[b]) {
      StreamsDiffer(seed, index[a], seed', index'[b]);
    }
  }

  /** Nor do two chunks of one tile. */
  lemma ChunksDrawApart(seed: int, n: nat, cores: nat, a: nat, b: nat)
    requires 0 < cores <= 1_000_003 && a < b < |TileTasks(seed, n, cores)|
    ensures TileTasks(seed, n, cores)[a].stream != TileTasks(seed, n, cores)[b].stream
  {
    var index := TileIsNumbered(seed, n, cores);
  }

  datatype McOut = McOut(
    paths: int, mean: real, stdev: real, worst: real, hist: seq<int>, lo: real, hi: real, yielded: bool)

  type Root = real -> real

  ghost predicate IsRoot(root: Root) {
    forall x: real :: 0.0 <= x ==> root(x) * root(x) == x && root(x) >= 0.0
  }

  /** `out` is the honest, mergeable summary of the simulated returns. */
  ghost predicate Summarizes(root: Root, b: Bins, rets: seq<real>, out: McOut)
    requires b.n > 0
  {
    var s := StatsOf(b, rets);
    && out.paths == s.count && out.hist == s.hist && out.worst == s.worst
    && out.lo == b.lo && out.hi == b.hi
    && out.mean == Mean(s) && out.stdev == root(Variance(s))
  }

  function Picked<T>(s: seq<T>, idx: seq<nat>): seq<T>
    requires forall i :: 0 <= i < |idx| ==> idx[i] < |s|
  {
    Reorder(s, idx)
  }

  /** The draws of a tile whose chunks all finished, in some completion order, on a machine with some core count. */
  ghost predicate TileDraws(w: World, m: Market, seed: int, n: nat, rets: seq<real>) {
    exists cores: nat, order: seq<nat> :: DrawnBy(w, m, seed, n, cores, order, rets)
  }

  ghost predicate DrawnBy(w: World, m: Market, seed: int, n: nat, cores: nat, order: seq<nat>, rets: seq<real>) {
    && cores > 0 && Permutation(order, |TileTasks(seed, n, cores)|)
    && rets == Simulated(w, m, Picked(TileTasks(seed, n, cores), order))
  }

  /** `out` is what a machine returns for the tile when it neither yields nor loses a chunk. */
  ghost predicate HonestRisk(w: World, m: Market, lo: real, hi: real, bins: nat, seed: int, n: nat, out: McOut) {
    bins > 0 && exists rets :: TileDraws(w, m, seed, n, rets) && Summarizes(w.sqrt, MakeBins(lo, hi, bins), rets, out)
  }

  /** The tile executor over the chunks that finished, in completion order. */
  method RunMontecarlo(w: World, m: Market, lo: real, hi: real, bins: nat, seed: int, n: nat, cores: nat,
                       finished: nat -> seq<nat>, yielded: bool) returns (out: McOut, ghost done: seq<Task>)
    requires cores > 0 && bins > 0 && IsRoot(w.sqrt)
    requires forall t :: forall i :: 0 <= i < |finished(t)| ==> finished(t)[i] < t
    ensures Summarizes(w.sqrt, MakeBins(lo, hi, bins), Simulated(w, m, done), out) && out.yielded == yielded
    ensures var tasks := TileTasks(seed, n, cores);
            && done == Picked(tasks, finished(|tasks|))
            && (Permutation(finished(|tasks|), |tasks|) ==> HonestRisk(w, m, lo, hi, bins, seed, n, out))
  {
    var b := MakeBins(lo, hi, bins);
    var tasks := TileTasks(seed, n, cores);
    var order := finished(|tasks|);
    done := Picked(tasks, order);
    var acc := RunChunks(w, m, b, tasks, order);
    VarianceNonNegative(b, Simulated(w, m, done));
    out := McOut(acc.count, Mean(acc), (w.sqrt)(RMax(0.0, Variance(acc))), acc.worst, acc.hist, lo, hi, yielded);
    if Permutation(order, |tasks|) {
      HonestWhenComplete(w, m, lo, hi, bins, seed, n, cores, order, Simulated(w, m, done), out);
    }
  }

  lemma HonestWhenComplete(w: World, m: Market, lo: real, hi: real, bins: nat, seed: int, n: nat, cores: nat,
                           order: seq<nat>, rets: seq<real>, out: McOut)
    requires bins > 0 && DrawnBy(w, m, seed, n, cores, order, rets)
    requires Summarizes(w.sqrt, MakeBins(lo, hi, bins), rets, out)
    ensures HonestRisk(w, m, lo, hi, bins, seed, n, out)
  {
    assert TileDraws(w, m, seed, n, rets);
  }

  /** The accumulation over the finished chunks. */
  method RunChunks(w: World, m: Market, b: Bins, tasks: seq<Task>, order: seq<nat>) returns (acc: Stats)
    requires b.n > 0 && forall i :: 0 <= i < |order| ==> order[i] < |tasks|
    ensures acc == StatsOf(b, Simulated(w, m, Picked(tasks, order)))
  {
    ghost var done := Picked(tasks, order);
    acc := NoPaths(b);
    for k := 0 to |order|
      invariant acc == StatsOf(b, Simulated(w, m, done[..k]))
    {
      var part := McChunk(w, m, b, tasks[order[k]].stream, tasks[order[k]].paths);
      NextChunk(w, m, b, done, k);
      acc := Combine(acc, part);
    }
    assert done[..|order|] == done;
  }

  lemma NextChunk(w: World, m: Market, b: Bins, done: seq<Task>, k: nat)
    requires b.n > 0 && k < |done|
    ensures StatsOf(b, Simulated(w, m, done[..k + 1]))
         == Combine(StatsOf(b, Simulated(w, m, done[..k])), StatsOf(b, Draws(w, m, done[k].stream, done[k].paths)))
  {
    var draws := ChunkDraws(w, m, done[..k + 1]);
    assert draws[..k] == ChunkDraws(w, m, done[..k]);
    StatsAppend(b, Simulated(w, m, done[..k]), draws[k]);
  }

  /** A tile whose chunks all finished has the statistics of its whole task list, in any completion order. */
  lemma CompletionOrderIsIrrelevant(w: World, m: Market, b: Bins, tasks: seq<Task>, order: seq<nat>)
    requires b.n > 0 && Permutation(order, |tasks|)
    ensures StatsOf(b, Simulated(w, m, Reorder(tasks, order))) == StatsOf(b, Simulated(w, m, tasks))
  {
    var draws := ChunkDraws(w, m, tasks);
    assert ChunkDraws(w, m, Reorder(tasks, order)) == Reorder(draws, order);
    ReorderMultiset(draws, order);
    FlattenMultiset(Reorder(draws, order), draws);
    StatsAnyOrder(b, Flatten(Reorder(draws, order)), Flatten(draws));
  }

  lemma {:induction false} PathsOfTasks(w: World, m: Market, seed: int, base: nat, rem: nat, n: nat)
    ensures |Simulated(w, m, TaskList(seed, base, rem, n))| == n * base + Min(n, rem)
  {
    if n > 0 {
      PathsOfTasks(w, m, seed, base, rem, n - 1);
      assert n * base == (n - 1) * base + base;
      var init := TaskList(seed, base, rem, n - 1);
      if LaidSize(base, rem, n - 1) > 0 {
        var last := Task(Stream(seed, n - 1), LaidSize(base, rem, n - 1));
        var draws := ChunkDraws(w, m, init + [last]);
        assert draws[..|init|] == ChunkDraws(w, m, init);
      } else {
        assert TaskList(seed, base, rem, n) == init;
      }
    }
  }

  /** The chunks of a tile simulate exactly the tile's number of paths. */
  lemma TileSimulatesItsPaths(w: World, m: Market, seed: int, n: nat, cores: nat)
    requires cores > 0
    ensures |Simulated(w, m, TileTasks(seed, n, cores))| == n
  {
    var chunks := McChunks(n, cores);
    var base, rem := DivMod(n, chunks);
    PathsOfTasks(w, m, seed, base, rem, chunks);
  }

  lemma DivMod(n: nat, k: nat) returns (q: nat, r: nat)
    requires k > 0
    ensures q == n / k && r == n % k && n == k * q + r && r < k
  {
    q, r := n / k, n % k;
  }

  /** ... in whatever order they finish, whatever the core count. */
  lemma TileDrawsItsPaths(w: World, m: Market, seed: int, n: nat, rets: seq<real>)
    requires TileDraws(w, m, seed, n, rets)
    ensures |rets| == n
  {
    var cores: nat, order: seq<nat> :| DrawnBy(w, m, seed, n, cores, order, rets);
    var tasks := TileTasks(seed, n, cores);
    var draws := ChunkDraws(w, m, tasks);
    assert ChunkDraws(w, m, Reorder(tasks, order)) == Reorder(draws, order);
    ReorderMultiset(draws, order);
    FlattenMultiset(Reorder(draws, order), draws);
    TileSimulatesItsPaths(w, m, seed, n, cores);
    assert |multiset(Flatten(Reorder(draws, order)))| == |rets|;
    assert |multiset(Flatten(draws))| == n;
  }

  // ---------------------------------------------------------------- what the paths owe to the machine

  /** The two core counts give a tile of n paths the same chunks: equally many, or one path each. */
  predicate SameChunks(n: nat, cores: nat, cores': nat)
    requires cores > 0 && cores' > 0
  {
    McChunks(n, cores) == McChunks(n, cores') || (n <= McChunks(n, cores) && n <= McChunks(n, cores'))
  }

  /** One path to each of the first n streams. */
  function Singles(seed: int, n: nat): seq<Task> {
    if n == 0 then [] else Singles(seed, n - 1) + [Task(Stream(seed, n - 1), 1)]
  }

  lemma {:induction false} ListOfSingles(seed: int, rem: nat, n: nat)
    ensures TaskList(seed, 1, 0, n) == Singles(seed, n)
    ensures TaskList(seed, 0, rem, n) == Singles(seed, Min(rem, n))
  {
    if n > 0 {
      ListOfSingles(seed, rem, n - 1);
    }
  }

  lemma ManyChunksAreSingles(seed: int, n: nat, cores: nat)
    requires cores > 0 && n <= McChunks(n, cores)
    ensures TileTasks(seed, n, cores) == Singles(seed, n)
  {
    var base, rem := DivMod(n, McChunks(n, cores));
    EnoughChunks(seed, n, McChunks(n, cores), base, rem);
  }

  lemma EnoughChunks(seed: int, n: nat, chunks: nat, base: nat, rem: nat)
    requires n <= chunks && n == chunks * base + rem && rem < chunks
    ensures TaskList(seed, base, rem, chunks) == Singles(seed, n)
  {
    ListOfSingles(seed, rem, chunks);
    SmallQuotient(n, chunks, base, rem);
  }

  lemma SmallQuotient(n: nat, k: nat, q: nat, r: nat)
    requires n <= k && n == k * q + r && r < k
    ensures if n < k then q == 0 && r == n else q == 1 && r == 0
  {
    assert q >= 1 ==> k * q >= k;
    assert q >= 2 ==> k * q >= k + k;
    assert q == 0 ==> k * q == 0;
  }

  /** A world in which every path of one stream returns 1 and all others 0. */
  function OneStream(stream: int): World {
    World((_, _) => [], _ => 0.0, (_, _, _) => 0, (_, _) => map[], (_, _) => "",
          (m, s, k) => if s == stream then 1.0 else 0.0, x => x)
  }

  lemma {:induction false} SumOfDraws(m: Market, stream: int, s: int, n: nat)
    ensures SumR(Draws(OneStream(stream), m, s, n)) == if s == stream then n as real else 0.0
  {
    var draws := Draws(OneStream(stream), m, s, n);
    if n > 0 {
      SumOfDraws(m, stream, s, n - 1);
      SumRPrefix(draws, n - 1);
      assert draws[..n] == draws && draws[..n - 1] == Draws(OneStream(stream), m, s, n - 1);
    }
  }

  /** In that world a task list returns the number of paths it gives to the stream. */
  lemma {:induction false} SumOfTasks(m: Market, seed: int, base: nat, rem: nat, n: nat, c: nat)
    ensures SumR(Simulated(OneStream(Stream(seed, c)), m, TaskList(seed, base, rem, n)))
         == if c < n then LaidSize(base, rem, c) as real else 0.0
  {
    if n > 0 {
      var w, init, size := OneStream(Stream(seed, c)), TaskList(seed, base, rem, n - 1), LaidSize(base, rem, n - 1);
      SumOfTasks(m, seed, base, rem, n - 1, c);
      if size > 0 {
        var last := Task(Stream(seed, n - 1), size);
        OneTaskMore(w, m, init, last);
        SumOfDraws(m, Stream(seed, c), last.stream, size);
      } else {
        assert TaskList(seed, base, rem, n) == init;
      }
    }
  }

  lemma OneTaskMore(w: World, m: Market, init: seq<Task>, last: Task)
    ensures SumR(Simulated(w, m, init + [last]))
         == SumR(Simulated(w, m, init)) + SumR(Draws(w, m, last.stream, last.paths))
  {
    var draws := ChunkDraws(w, m, init + [last]);
    assert draws[..|init|] == ChunkDraws(w, m, init);
    SumRAppend(Simulated(w, m, init), Draws(w, m, last.stream, last.paths));
  }

  /** The sum of a tile's returns on one machine. */
  function TileTotal(w: World, m: Market, seed: int, n: nat, cores: nat): real
    requires cores > 0
  {
    SumR(Simulated(w, m, TileTasks(seed, n, cores)))
  }

  /** Fewer chunks than paths, and more of them elsewhere: the extra stream shows. */
  lemma ExtraStreamShows(m: Market, seed: int, n: nat, cores: nat, cores': nat)
    requires cores > 0 && cores' > 0 && McChunks(n, cores) < McChunks(n, cores') && McChunks(n, cores) < n
    ensures var w := OneStream(Stream(seed, McChunks(n, cores)));
            TileTotal(w, m, seed, n, cores) != TileTotal(w, m, seed, n, cores')
  {
    var a, b := McChunks(n, cores), McChunks(n, cores');
    var q, r := DivMod(n, a);
    SumOfTasks(m, seed, q, r, a, a);
    var q', r' := DivMod(n, b);
    SumOfTasks(m, seed, q', r', b, a);
    ChunkHasPaths(n, b, q', r', a);
  }

  lemma ChunkHasPaths(n: nat, k: nat, q: nat, r: nat, c: nat)
    requires n == k * q + r && c < n
    ensures LaidSize(q, r, c) > 0
  {
    assert q == 0 ==> k * q == 0;
  }

  /** A tile's paths owe nothing to the machine exactly when the core counts give it the same chunks. They do on all
      machines with few enough cores, but not, for instance, for two paths on one core and on two. */
  lemma PathsIgnoreCoresIff(m: Market, seed: int, n: nat, cores: nat, cores': nat)
    requires cores > 0 && cores' > 0
    ensures TileTasks(seed, n, cores) == TileTasks(seed, n, cores') <==> SameChunks(n, cores, cores')
    ensures (forall w: World :: TileTotal(w, m, seed, n, cores) == TileTotal(w, m, seed, n, cores'))
            <==> SameChunks(n, cores, cores')
    ensures Max(cores, cores') <= Min(2048, (n + 1999) / 2000) ==> SameChunks(n, cores, cores')
    ensures !SameChunks(2, 1, 2)
  {
    var a, b := McChunks(n, cores), McChunks(n, cores');
    if a != b && n <= a && n <= b {
      ManyChunksAreSingles(seed, n, cores);
      ManyChunksAreSingles(seed, n, cores');
    } else if a < b {
      ExtraStreamShows(m, seed, n, cores, cores');
    } else if b < a {
      ExtraStreamShows(m, seed, n, cores', cores);
    }
  }

  // ---------------------------------------------------------------- the fleet merge

  datatype Merged = Merged(paths: int, weightedMean: real, weightedSq: real, worst: real, hist: seq<int>)

  function Usable(results: seq<McOut>): seq<McOut> {
    if results == [] then []
    else Usable(results[..|results| - 1]) + if results[|results| - 1].paths != 0 then [results[|results| - 1]] else []
  }

  function WeightedMean(p: McOut): real {
    p.mean * p.paths as real
  }

  /** E[X^2] of the tile, times its paths. */
  function WeightedSq(p: McOut): real {
    (p.stdev * p.stdev + p.mean * p.mean) * p.paths as real
  }

  function MergeOne(r: Merged, p: McOut): Merged {
    Merged(r.paths + p.paths, r.weightedMean + WeightedMean(p), r.weightedSq + WeightedSq(p),
           RMin(r.worst, p.worst), AddHist(r.hist, p.hist))
  }

  function MergeTiles(n: nat, parts: seq<McOut>): (r: Merged)
    ensures |r.hist| == n
  {
    if parts == [] then Merged(0, 0.0, 0.0, 0.0, seq(n, _ => 0))
    else MergeOne(MergeTiles(n, parts[..|parts| - 1]), parts[|parts| - 1])
  }

  /** Some usable histogram has more bins than the first one. */
  ghost predicate Overlong(parts: seq<McOut>) {
    exists k :: 0 <= k < |parts| && |parts[k].hist| > |parts[0].hist|
  }

  /** The accumulation loop; a histogram longer than the first one raises IndexError. */
  method MergeParts(results: seq<McOut>) returns (res: Result<Merged>)
    ensures res.Err? <==> Overlong(Usable(results))
    ensures var parts := Usable(results);
            res.Ok? ==> res.value == MergeTiles(if parts == [] then 0 else |parts[0].hist|, parts)
  {
    var parts := Usable(results);
    if parts == [] {
      return Ok(Merged(0, 0.0, 0.0, 0.0, []));
    }
    var n := |parts[0].hist|;
    var hist := seq(n, _ => 0);
    var paths, wMean, wSq, worst := 0, 0.0, 0.0, 0.0;
    for k := 0 to |parts|
      invariant |hist| == n
      invariant Merged(paths, wMean, wSq, worst, hist) == MergeTiles(n, parts[..k])
      invariant forall j :: 0 <= j < k ==> |parts[j].hist| <= n
    {
      var part := parts[k];
      assert parts[..k + 1][..k] == parts[..k];
      ghost var before := hist;
      paths := paths + part.paths;
      wMean := wMean + WeightedMean(part);
      wSq := wSq + WeightedSq(part);
      worst := RMin(worst, part.worst);
      if |part.hist| > n {
        return Err("list index out of range");
      }
      for i := 0 to |part.hist|
        invariant |hist| == n
        invariant forall j :: 0 <= j < n ==> hist[j] == before[j] + if j < i then part.hist[j] else 0
      {
        hist := hist[i := hist[i] + part.hist[i]];
      }
      assert hist == AddHist(before, part.hist);
    }
    assert parts[..|parts|] == parts;
    return Ok(Merged(paths, wMean, wSq, worst, hist));
  }

  ghost predicate HonestTiles(root: Root, b: Bins, sims: seq<seq<real>>, outs: seq<McOut>)
    requires b.n > 0
  {
    |outs| == |sims| && forall i :: 0 <= i < |outs| ==> Summarizes(root, b, sims[i], outs[i])
  }

  /** What the merge reads back from a tile's count, mean and deviation. */
  lemma MomentsReadBack(root: Root, s: Stats) returns (n: real, m: real, sd: real)
    requires IsRoot(root) && Variance(s) >= 0.0 && s.count > 0
    ensures n == s.count as real && m == Mean(s) && sd == root(Variance(s))
    ensures m * n == s.total && (sd * sd + m * m) * n == s.totalSq
  {
    n, m, sd := s.count as real, Mean(s), root(Variance(s));
    assert m * n == s.total;
    assert sd * sd + m * m == s.totalSq / n;
  }

  lemma TileMoments(root: Root, b: Bins, rets: seq<real>, out: McOut)
    requires b.n > 0 && IsRoot(root) && Summarizes(root, b, rets, out)
    ensures WeightedMean(out) == StatsOf(b, rets).total && WeightedSq(out) == StatsOf(b, rets).totalSq
  {
    var s := StatsOf(b, rets);
    if rets != [] {
      VarianceNonNegative(b, rets);
      CountAndSign(b, rets);
      var n, m, sd := MomentsReadBack(root, s);
    }
  }

  function AsMerged(s: Stats): Merged {
    Merged(s.count, s.total, s.totalSq, s.worst, s.hist)
  }

  lemma MergeUsable(n: nat, outs: seq<McOut>)
    requires outs != []
    ensures var init, last := Usable(outs[..|outs| - 1]), outs[|outs| - 1];
            MergeTiles(n, Usable(outs))
            == if last.paths == 0 then MergeTiles(n, init) else MergeOne(MergeTiles(n, init), last)
  {
    var init, last := Usable(outs[..|outs| - 1]), outs[|outs| - 1];
    assert (init + [last])[..|init|] == init;
    assert init + [] == init;
  }

  /** Merging is a homomorphism: merged tiles carry the statistics of all their paths together. */
  lemma {:induction false} MergeIsHomomorphism(root: Root, b: Bins, sims: seq<seq<real>>, outs: seq<McOut>)
    requires b.n > 0 && IsRoot(root) && HonestTiles(root, b, sims, outs)
    ensures MergeTiles(b.n, Usable(outs)) == AsMerged(StatsOf(b, Flatten(sims)))
    decreases |outs|
  {
    if outs != [] {
      var n := |outs| - 1;
      MergeIsHomomorphism(root, b, sims[..n], outs[..n]);
      MergeUsable(b.n, outs);
      CountAndSign(b, sims[n]);
      if outs[n].paths == 0 {
        assert sims[n] == [];
        assert Flatten(sims) == Flatten(sims[..n]);
      } else {
        StatsAppend(b, Flatten(sims[..n]), sims[n]);
        TileMoments(root, b, sims[n], outs[n]);
      }
    }
  }

  /** Fleet risk equals single-machine risk: same count, mean, variance, worst return and histogram,
      in whatever order tiles arrive and chunks finish. */
  lemma MergeMontecarlo(root: Root, b: Bins, sims: seq<seq<real>>, arrived: seq<seq<real>>, outs: seq<McOut>)
    requires b.n > 0 && IsRoot(root) && HonestTiles(root, b, arrived, outs)
    requires multiset(arrived) == multiset(sims)
    ensures var s, r := StatsOf(b, Flatten(sims)), MergeTiles(b.n, Usable(outs));
            && r == AsMerged(s) && r.paths == |Flatten(sims)|
            && MergedMean(r) == Mean(s) && MergedVariance(r) == Variance(s) >= 0.0
  {
    MergeIsHomomorphism(root, b, arrived, outs);
    FlattenMultiset(arrived, sims);
    StatsAnyOrder(b, Flatten(arrived), Flatten(sims));
    CountAndSign(b, Flatten(sims));
    VarianceNonNegative(b, Flatten(sims));
    SameMoments(StatsOf(b, Flatten(sims)));
  }

  function MergedMean(r: Merged): real {
    if r.paths == 0 then 0.0 else r.weightedMean / r.paths as real
  }

  /** The merge takes its square root without a clamp. */
  function MergedVariance(r: Merged): real {
    if r.paths == 0 then 0.0 else r.weightedSq / r.paths as real - MergedMean(r) * MergedMean(r)
  }

  lemma SameMoments(s: Stats)
    ensures MergedMean(AsMerged(s)) == Mean(s) && MergedVariance(AsMerged(s)) == Variance(s)
  {
  }
}
