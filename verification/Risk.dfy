/** Value at risk and conditional value at risk off the merged histogram (aggregate_montecarlo). */
module Risk {
  import opened Base
  import opened MonteCarlo

  function Center(lo: real, width: real, i: int): real {
    lo + (i as real + 0.5) * width
  }

  /** Paths in bins 0 .. i. */
  function TailCount(hist: seq<int>, i: int): int
    requires -1 <= i < |hist|
  {
    Sum(hist[..i + 1])
  }

  /** Sum of the bin centres of those paths. */
  function TailSum(hist: seq<int>, lo: real, width: real, i: int): real
    requires -1 <= i < |hist|
  {
    if i == -1 then 0.0 else TailSum(hist, lo, width, i - 1) + hist[i] as real * Center(lo, width, i)
  }

  function CvarReturn(hist: seq<int>, lo: real, width: real, i: int, ret: real): real
    requires -1 <= i < |hist|
  {
    MeanOr(TailCount(hist, i), TailSum(hist, lo, width, i), ret)
  }

  function MeanOr(n: int, s: real, default: real): real {
    if n != 0 then s / n as real else default
  }

  /** The first bin at which the cumulative count reaches `rank`. */
  ghost predicate LeastBin(hist: seq<int>, rank: real, i: int) {
    && 0 <= i < |hist| && TailCount(hist, i) as real >= rank
    && forall k :: 0 <= k < i ==> (TailCount(hist, k) as real) < rank
  }

  method ReturnAt(hist: seq<int>, lo: real, hi: real, width: real, rank: real) returns (i: int, ret: real)
    ensures -1 <= i < |hist|
    ensures (exists k :: 0 <= k < |hist| && TailCount(hist, k) as real >= rank) ==>
              LeastBin(hist, rank, i) && ret == Center(lo, width, i)
    ensures (forall k :: 0 <= k < |hist| ==> (TailCount(hist, k) as real) < rank) ==> i == |hist| - 1 && ret == hi
  {
    var cum := 0;
    for k := 0 to |hist|
      invariant cum == Sum(hist[..k])
      invariant forall j :: 0 <= j < k ==> (TailCount(hist, j) as real) < rank
    {
      SumPrefix(hist, k);
      cum := cum + hist[k];
      if cum as real >= rank {
        return k, Center(lo, width, k);
      }
    }
    return |hist| - 1, hi;
  }

  datatype RiskLine = RiskLine(valueAtRisk: real, conditional: real)

  function TailRank(paths: int, level: real): real {
    paths as real * (1.0 - level)
  }

  ghost predicate RiskAt(hist: seq<int>, lo: real, hi: real, width: real, rank: real, r: RiskLine) {
    if exists i :: LeastBin(hist, rank, i) then
      exists i :: LeastBin(hist, rank, i)
                  && r.valueAtRisk == -Center(lo, width, i)
                  && r.conditional == -CvarReturn(hist, lo, width, i, Center(lo, width, i))
    else
      && r.valueAtRisk == -hi
      && r.conditional == -CvarReturn(hist, lo, width, |hist| - 1, hi)
  }

  method RiskOf(hist: seq<int>, lo: real, hi: real, width: real, paths: int, level: real) returns (r: RiskLine)
    ensures RiskAt(hist, lo, hi, width, TailRank(paths, level), r)
  {
    var rank := TailRank(paths, level);
    var idx, ret := ReturnAt(hist, lo, hi, width, rank);
    var tailCount := Sum(hist[..idx + 1]);
    var tailSum := TailValue(hist, lo, width, idx);
    r := RiskLine(-ret, -MeanOr(tailCount, tailSum, ret));
    if i :| LeastBin(hist, rank, i) {
      assert LeastBin(hist, rank, idx);
    } else if k :| 0 <= k < |hist| && TailCount(hist, k) as real >= rank {
      assert false;
    }
  }

  method TailValue(hist: seq<int>, lo: real, width: real, i: int) returns (tailSum: real)
    requires -1 <= i < |hist|
    ensures tailSum == TailSum(hist, lo, width, i)
  {
    tailSum := 0.0;
    for b := 0 to i + 1
      invariant tailSum == TailSum(hist, lo, width, b - 1)
    {
      tailSum := tailSum + hist[b] as real * Center(lo, width, b);
    }
  }

  ghost predicate IsHistogram(hist: seq<int>, paths: int) {
    hist != [] && Sum(hist) == paths && forall i :: 0 <= i < |hist| ==> 0 <= hist[i]
  }

  /** `r` is what the merge reports at this level for a histogram of `paths` paths. */
  ghost predicate Reports(hist: seq<int>, lo: real, hi: real, paths: int, level: real, r: RiskLine) {
    IsHistogram(hist, paths) && 0.0 <= level && RiskAt(hist, lo, hi, Width(lo, hi, |hist|), TailRank(paths, level), r)
  }

  /** The scan stops at a bin exactly when the level is not negative, or there is no path to count. */
  lemma RankIsReached(hist: seq<int>, paths: int, level: real)
    requires IsHistogram(hist, paths)
    ensures (exists i :: LeastBin(hist, TailRank(paths, level), i)) <==> 0.0 <= level || paths == 0
  {
    SumNonNegative(hist);
    assert hist[..|hist|] == hist;
    assert TailCount(hist, |hist| - 1) == paths;
    assert TailRank(paths, level) == paths as real - paths as real * level;
    if 0.0 <= level || paths == 0 {
      assert paths as real * level >= 0.0;
      FirstReaching(hist, TailRank(paths, level), |hist| - 1);
    } else {
      assert paths as real * level < 0.0;
      if i :| LeastBin(hist, TailRank(paths, level), i) {
        TailGrows(hist, 0.0, 1.0, i, |hist| - 1);
      }
    }
  }

  lemma {:induction false} FirstReaching(hist: seq<int>, rank: real, j: nat)
    requires j < |hist| && TailCount(hist, j) as real >= rank
    ensures exists i :: LeastBin(hist, rank, i)
    decreases j
  {
    if k :| 0 <= k < j && TailCount(hist, k) as real >= rank {
      FirstReaching(hist, rank, k);
    } else {
      assert LeastBin(hist, rank, j);
    }
  }

  lemma CentersIncrease(lo: real, width: real, i: int, j: int)
    requires width >= 0.0 && i <= j
    ensures Center(lo, width, i) <= Center(lo, width, j)
  {
    assert (j - i) as real * width >= 0.0;
    assert Center(lo, width, j) - Center(lo, width, i) == (j - i) as real * width;
  }

  /** n paths worth at most (at least) c each. */
  lemma Weigh(n: int, x: real, c: real)
    requires n >= 0 && x <= c
    ensures n as real * x <= n as real * c
  {
  }

  lemma WeightsAdd(n: int, m: int, c: real)
    ensures (n + m) as real * c == n as real * c + m as real * c
  {
  }

  lemma TailCountStep(hist: seq<int>, i: nat)
    requires i < |hist|
    ensures TailCount(hist, i) == TailCount(hist, i - 1) + hist[i]
  {
    SumPrefix(hist, i);
  }

  lemma {:induction false} TailBelow(hist: seq<int>, lo: real, width: real, i: int)
    requires width >= 0.0 && -1 <= i < |hist| && forall k :: 0 <= k < |hist| ==> 0 <= hist[k]
    ensures 0 <= TailCount(hist, i)
    ensures TailSum(hist, lo, width, i) <= TailCount(hist, i) as real * Center(lo, width, i)
  {
    if i >= 0 {
      TailBelow(hist, lo, width, i - 1);
      TailCountStep(hist, i);
      CentersIncrease(lo, width, i - 1, i);
      var c := Center(lo, width, i);
      Weigh(TailCount(hist, i - 1), Center(lo, width, i - 1), c);
      WeightsAdd(TailCount(hist, i - 1), hist[i], c);
    }
  }

  /** The bins from i+1 to j add paths worth at least the centre of bin i each. */
  lemma {:induction false} TailGrows(hist: seq<int>, lo: real, width: real, i: nat, j: nat)
    requires width >= 0.0 && i <= j < |hist| && forall k :: 0 <= k < |hist| ==> 0 <= hist[k]
    ensures TailCount(hist, i) <= TailCount(hist, j)
    ensures TailSum(hist, lo, width, j) - TailSum(hist, lo, width, i)
         >= (TailCount(hist, j) - TailCount(hist, i)) as real * Center(lo, width, i)
    decreases j
  {
    if i < j {
      TailGrows(hist, lo, width, i, j - 1);
      TailCountStep(hist, j);
      CentersIncrease(lo, width, i, j);
      var c, d := Center(lo, width, i), TailCount(hist, j - 1) - TailCount(hist, i);
      Weigh(hist[j], c, Center(lo, width, j));
      WeightsAdd(d, hist[j], c);
    }
  }

  lemma MeanAtMost(n: real, s: real, c: real)
    requires n > 0.0 && s <= n * c
    ensures s / n <= c
  {
    assert c - s / n == (n * c - s) / n;
  }

  /** Adding d paths worth at least c each to n paths worth at most c each cannot lower the mean. */
  lemma MeanGrows(n: real, s: real, d: real, t: real, c: real)
    requires n > 0.0 && d >= 0.0 && s <= n * c && t >= d * c
    ensures s / n <= (s + t) / (n + d)
  {
    MeanAtMost(n, s, c);
    var m := s / n;
    assert s == n * m;
    assert d * m <= d * c;
    assert (n + d) * m == n * m + d * m;
    assert (n + d) * m <= s + t;
    assert (s + t) / (n + d) - m == (s + t - (n + d) * m) / (n + d);
  }

  /** n paths worth s in all, at most c each, are joined by more that are worth at least c each. */
  ghost predicate Joined(n: int, s: real, n': int, s': real, c: real) {
    0 <= n <= n' && s <= n as real * c && s' - s >= (n' - n) as real * c && (n == 0 ==> s == 0.0)
  }

  lemma TailsJoin(hist: seq<int>, lo: real, width: real, i: nat, j: nat)
    requires width >= 0.0 && i <= j < |hist| && forall k :: 0 <= k < |hist| ==> 0 <= hist[k]
    ensures Joined(TailCount(hist, i), TailSum(hist, lo, width, i), TailCount(hist, j), TailSum(hist, lo, width, j),
                   Center(lo, width, i))
  {
    TailBelow(hist, lo, width, i);
    TailGrows(hist, lo, width, i, j);
    if TailCount(hist, i) == 0 {
      EmptyTail(hist, lo, width, i);
    }
  }

  /** The tail mean never decreases as the tail takes in more bins. */
  lemma CvarReturnMonotone(hist: seq<int>, lo: real, width: real, i: nat, j: nat)
    requires width >= 0.0 && i <= j < |hist| && forall k :: 0 <= k < |hist| ==> 0 <= hist[k]
    ensures CvarReturn(hist, lo, width, i, Center(lo, width, i)) <= CvarReturn(hist, lo, width, j, Center(lo, width, j))
  {
    TailsJoin(hist, lo, width, i, j);
    CentersIncrease(lo, width, i, j);
    MeanOrGrows(TailCount(hist, i), TailSum(hist, lo, width, i), TailCount(hist, j), TailSum(hist, lo, width, j),
                Center(lo, width, i), Center(lo, width, j));
  }

  lemma MeanOrGrows(n: int, s: real, n': int, s': real, c: real, c': real)
    requires Joined(n, s, n', s', c) && c <= c'
    ensures MeanOr(n, s, c) <= MeanOr(n', s', c')
  {
    if n > 0 {
      MeanGrows(n as real, s, (n' - n) as real, s' - s, c);
    } else if n' > 0 {
      MeanAtMost(n' as real, -s', -c);
    }
  }

  lemma {:induction false} EmptyTail(hist: seq<int>, lo: real, width: real, i: int)
    requires -1 <= i < |hist| && TailCount(hist, i) == 0 && forall k :: 0 <= k < |hist| ==> 0 <= hist[k]
    ensures TailSum(hist, lo, width, i) == 0.0
  {
    if i >= 0 {
      TailCountStep(hist, i);
      SumNonNegative(hist[..i]);
      EmptyTail(hist, lo, width, i - 1);
    }
  }

  lemma TailMeanBelowEdge(hist: seq<int>, lo: real, width: real, i: nat)
    requires width >= 0.0 && i < |hist| && forall k :: 0 <= k < |hist| ==> 0 <= hist[k]
    ensures CvarReturn(hist, lo, width, i, Center(lo, width, i)) <= Center(lo, width, i)
  {
    TailBelow(hist, lo, width, i);
    MeanOrAtMost(TailCount(hist, i), TailSum(hist, lo, width, i), Center(lo, width, i));
  }

  lemma MeanOrAtMost(n: int, s: real, c: real)
    requires 0 <= n && s <= n as real * c
    ensures MeanOr(n, s, c) <= c
  {
    if n > 0 {
      MeanAtMost(n as real, s, c);
    }
  }

  /** The mean loss of the tail is at least the loss at its edge. */
  lemma CvarAtLeastVar(hist: seq<int>, lo: real, hi: real, paths: int, level: real, r: RiskLine)
    requires Reports(hist, lo, hi, paths, level, r) && lo <= hi
    ensures r.conditional >= r.valueAtRisk
  {
    var width := Width(lo, hi, |hist|);
    WidthNonNegative(lo, hi, |hist|);
    RankIsReached(hist, paths, level);
    RiskEdge(hist, lo, hi, width, TailRank(paths, level), r);
  }

  lemma RiskEdge(hist: seq<int>, lo: real, hi: real, width: real, rank: real, r: RiskLine)
    requires width >= 0.0 && (forall k :: 0 <= k < |hist| ==> 0 <= hist[k]) && exists i :: LeastBin(hist, rank, i)
    requires RiskAt(hist, lo, hi, width, rank, r)
    ensures r.conditional >= r.valueAtRisk
  {
    var i :| LeastBin(hist, rank, i)
             && r.valueAtRisk == -Center(lo, width, i)
             && r.conditional == -CvarReturn(hist, lo, width, i, Center(lo, width, i));
    TailMeanBelowEdge(hist, lo, width, i);
  }

  lemma WidthNonNegative(lo: real, hi: real, n: nat)
    requires lo <= hi
    ensures Width(lo, hi, n) >= 0.0
  {
  }

  lemma {:induction false} LeastBinAntitone(hist: seq<int>, rank: real, rank': real, i: int, i': int)
    requires LeastBin(hist, rank, i) && LeastBin(hist, rank', i') && rank' <= rank
    ensures i' <= i
  {
    if i < i' {
      assert false;
    }
  }

  lemma RankAntitone(paths: int, level: real, level': real)
    requires 0 <= paths && level <= level'
    ensures TailRank(paths, level') <= TailRank(paths, level)
  {
    assert paths as real * (level' - level) >= 0.0;
  }

  /** A stricter confidence level never reports a smaller loss. */
  lemma RiskMonotoneInLevel(hist: seq<int>, lo: real, hi: real, paths: int,
                            level: real, r: RiskLine, level': real, r': RiskLine)
    requires Reports(hist, lo, hi, paths, level, r) && Reports(hist, lo, hi, paths, level', r')
    requires level <= level' && lo <= hi
    ensures r.valueAtRisk <= r'.valueAtRisk && r.conditional <= r'.conditional
  {
    var width := Width(lo, hi, |hist|);
    WidthNonNegative(lo, hi, |hist|);
    SumNonNegative(hist);
    RankIsReached(hist, paths, level);
    RankIsReached(hist, paths, level');
    RankAntitone(paths, level, level');
    var i :| LeastBin(hist, TailRank(paths, level), i)
             && r.valueAtRisk == -Center(lo, width, i)
             && r.conditional == -CvarReturn(hist, lo, width, i, Center(lo, width, i));
    var i' :| LeastBin(hist, TailRank(paths, level'), i')
              && r'.valueAtRisk == -Center(lo, width, i')
              && r'.conditional == -CvarReturn(hist, lo, width, i', Center(lo, width, i'));
    LeastBinAntitone(hist, TailRank(paths, level), TailRank(paths, level'), i, i');
    CentersIncrease(lo, width, i', i);
    CvarReturnMonotone(hist, lo, width, i', i);
  }

  // ---------------------------------------------------------------- which histogram bounds keep the order

  /** Whatever the histogram, the tail mean at this level is at least its edge. */
  ghost predicate TailAboveEdge(lo: real, hi: real, n: nat, level: real) {
    forall hist, paths, r :: |hist| == n && Reports(hist, lo, hi, paths, level, r) ==> r.conditional >= r.valueAtRisk
  }

  /** Whatever the histogram, the stricter level reports no smaller loss. */
  ghost predicate GrowsBetween(lo: real, hi: real, n: nat, level: real, level': real) {
    forall hist, paths, r, r' ::
      |hist| == n && Reports(hist, lo, hi, paths, level, r) && Reports(hist, lo, hi, paths, level', r') ==>
        r.valueAtRisk <= r'.valueAtRisk && r.conditional <= r'.conditional
  }

  /** `a` paths in the first bin, `b` in the second. */
  function TwoBins(a: nat, b: nat, n: nat): (hist: seq<int>)
    requires n >= 2
    ensures |hist| == n
  {
    [a, b] + seq(n - 2, _ => 0)
  }

  lemma {:induction false} SumOfZeros(n: nat)
    ensures Sum(seq(n, _ => 0)) == 0
  {
    if n > 0 {
      assert seq(n, _ => 0)[1..] == seq(n - 1, _ => 0);
      SumOfZeros(n - 1);
    }
  }

  lemma TwoBinsCounts(a: nat, b: nat, n: nat)
    requires n >= 2
    ensures var hist := TwoBins(a, b, n);
            IsHistogram(hist, a + b) && TailCount(hist, 0) == a && TailCount(hist, 1) == a + b
  {
    var hist := TwoBins(a, b, n);
    SumOfZeros(n - 2);
    assert hist[1..][1..] == seq(n - 2, _ => 0);
    assert Sum(hist) == a + Sum(hist[1..]) && Sum(hist[1..]) == b + Sum(hist[1..][1..]);
    assert hist[..1] == [a] && hist[..2] == [a, b];
    TailCountStep(hist, 0);
    TailCountStep(hist, 1);
  }

  lemma TwoBinsSums(a: nat, b: nat, n: nat, lo: real, width: real)
    requires n >= 2
    ensures var hist := TwoBins(a, b, n);
            && TailSum(hist, lo, width, 0) == a as real * Center(lo, width, 0)
            && TailSum(hist, lo, width, 1) == a as real * Center(lo, width, 0) + b as real * Center(lo, width, 1)
  {
    assert TailSum(TwoBins(a, b, n), lo, width, -1) == 0.0;
  }

  /** The rank lies above the first bin: the edge is the second. */
  lemma SecondBinReports(a: nat, b: nat, n: nat, lo: real, hi: real, level: real) returns (r: RiskLine)
    requires n >= 2 && 0.0 <= level && (a as real) < TailRank(a + b, level)
    ensures Reports(TwoBins(a, b, n), lo, hi, a + b, level, r)
    ensures r == TwoBinsEdge(a, b, lo, Width(lo, hi, n))
  {
    var hist, width := TwoBins(a, b, n), Width(lo, hi, n);
    SecondBinIsEdge(a, b, n, level);
    TwoBinsCounts(a, b, n);
    TwoBinsSums(a, b, n, lo, width);
    r := EdgeReports(hist, lo, hi, width, TailRank(a + b, level), 1);
  }

  lemma SecondBinIsEdge(a: nat, b: nat, n: nat, level: real)
    requires n >= 2 && 0.0 <= level && (a as real) < TailRank(a + b, level)
    ensures LeastBin(TwoBins(a, b, n), TailRank(a + b, level), 1)
  {
    TwoBinsCounts(a, b, n);
    RankBound(a + b, level);
  }

  /** The figures of two bins when the second is the edge. */
  function TwoBinsEdge(a: nat, b: nat, lo: real, width: real): RiskLine {
    var c0, c1 := Center(lo, width, 0), Center(lo, width, 1);
    RiskLine(-c1, -MeanOr(a + b, a as real * c0 + b as real * c1, c1))
  }

  lemma EdgeReports(hist: seq<int>, lo: real, hi: real, width: real, rank: real, i: nat) returns (r: RiskLine)
    requires LeastBin(hist, rank, i)
    ensures RiskAt(hist, lo, hi, width, rank, r)
    ensures r == RiskLine(-Center(lo, width, i), -CvarReturn(hist, lo, width, i, Center(lo, width, i)))
  {
    r := RiskLine(-Center(lo, width, i), -CvarReturn(hist, lo, width, i, Center(lo, width, i)));
  }

  /** The first bin reaches the rank: it is the whole tail. */
  lemma FirstBinReports(hist: seq<int>, lo: real, hi: real, paths: int, level: real, r: RiskLine)
    requires Reports(hist, lo, hi, paths, level, r) && hist[0] as real >= TailRank(paths, level)
    ensures var c := Center(lo, Width(lo, hi, |hist|), 0); r == RiskLine(-c, -c)
  {
    var width, rank := Width(lo, hi, |hist|), TailRank(paths, level);
    FirstBinTail(hist, lo, width, Center(lo, width, 0));
    assert LeastBin(hist, rank, 0);
    assert forall i :: LeastBin(hist, rank, i) ==> i == 0;
  }

  lemma FirstBinTail(hist: seq<int>, lo: real, width: real, c: real)
    requires hist != [] && c == Center(lo, width, 0)
    ensures TailCount(hist, 0) == hist[0] && CvarReturn(hist, lo, width, 0, c) == c
  {
    TailCountStep(hist, 0);
    assert hist[..0] == [];
    assert TailSum(hist, lo, width, -1) == 0.0 && TailSum(hist, lo, width, 0) == hist[0] as real * c;
    MeanOfEqual(hist[0], c);
  }

  lemma MeanOfEqual(n: int, c: real)
    ensures MeanOr(n, n as real * c, c) == c
  {
  }

  /** With a single bin, or at level 1 and above, the first bin reaches every rank. */
  lemma FirstBinSuffices(hist: seq<int>, paths: int, level: real)
    requires IsHistogram(hist, paths) && 0.0 <= level && (|hist| == 1 || level >= 1.0)
    ensures hist[0] as real >= TailRank(paths, level)
  {
    SumNonNegative(hist);
    assert |hist| == 1 ==> hist[1..] == [] && Sum(hist) == hist[0];
    RankBound(paths, level);
  }

  lemma RankBound(paths: int, level: real)
    requires 0 <= paths && 0.0 <= level
    ensures TailRank(paths, level) <= paths as real && (level >= 1.0 ==> TailRank(paths, level) <= 0.0)
  {
    assert paths as real * level >= 0.0;
    assert TailRank(paths, level) == paths as real - paths as real * level;
    if level >= 1.0 {
      assert paths as real * (level - 1.0) >= 0.0;
      assert TailRank(paths, level) == -(paths as real * (level - 1.0));
    }
  }

  lemma CentersFall(lo: real, hi: real, n: nat)
    requires n >= 2 && hi < lo
    ensures Center(lo, Width(lo, hi, n), 0) > Center(lo, Width(lo, hi, n), 1)
  {
    var width := Width(lo, hi, n);
    assert width < 0.0;
    assert Center(lo, width, 0) - Center(lo, width, 1) == -width;
  }

  /** The mean of two values, the larger one at least once, lies above the smaller. */
  lemma MeanAbove(a: nat, b: nat, c0: real, c1: real)
    requires c0 > c1 && a > 0
    ensures MeanOr(a + b, a as real * c0 + b as real * c1, c1) > c1
  {
    var n, x, y, gap := (a + b) as real, a as real, b as real, c0 - c1;
    assert x * gap > 0.0;
    assert x * c0 + y * c1 == x * gap + n * c1;
    MeanOverCenter(n, x * gap, c1);
  }

  lemma MeanOverCenter(n: real, extra: real, c: real)
    requires n > 0.0 && extra > 0.0
    ensures (extra + n * c) / n > c
  {
    assert (extra + n * c) / n == extra / n + c;
  }

  lemma EdgeMeanIsWorse(a: nat, b: nat, lo: real, hi: real, n: nat)
    requires n >= 2 && hi < lo && a > 0
    ensures var r := TwoBinsEdge(a, b, lo, Width(lo, hi, n)); r.conditional < r.valueAtRisk
  {
    CentersFall(lo, hi, n);
    MeanAbove(a, b, Center(lo, Width(lo, hi, n), 0), Center(lo, Width(lo, hi, n), 1));
  }

  lemma LessTimes(x: real, y: real, d: real)
    requires x < y && 0.0 < d
    ensures x * d < y * d
  {
  }

  lemma Reciprocal(d: real) returns (q: real)
    requires 0.0 < d
    ensures q > 0.0 && q * d == 1.0
  {
    q := 1.0 / d;
  }

  lemma AboveReciprocal(q: real, x: real, d: real)
    requires q * d == 1.0 && q < x && 0.0 < d
    ensures x * d > 1.0
  {
    var one := q * d;
    LessTimes(q, x, d);
    assert one < x * d;
  }

  lemma NextWhole(x: real) returns (n: nat)
    requires 0.0 < x
    ensures n > 0 && x < n as real
  {
    n := x.Floor + 1;
  }

  function Scaled(n: int, d: real): real {
    n as real * d
  }

  lemma Archimedes(d: real) returns (n: nat)
    requires 0.0 < d
    ensures n > 0 && Scaled(n, d) > 1.0
  {
    var q := Reciprocal(d);
    n := NextWhole(q);
    AboveReciprocal(q, n as real, d);
  }

  lemma RankGap(n: nat, level: real, level': real)
    ensures TailRank(n, level) - TailRank(n, level') == Scaled(n, level' - level)
  {
  }

  lemma RankPositive(n: nat, level: real)
    requires n > 0 && level < 1.0
    ensures TailRank(n, level) > 0.0
  {
    LessTimes(0.0, n as real, 1.0 - level);
  }

  /** One path in the first bin, and enough in the second to lift the rank above one. */
  lemma PathsAboveOne(level: real) returns (a: nat, b: nat)
    requires 0.0 <= level < 1.0
    ensures a > 0 && TailRank(a + b, level) > a as real
  {
    var n := Archimedes(1.0 - level);
    assert TailRank(n, level) == Scaled(n, 1.0 - level);
    a, b := 1, n - 1;
  }

  /** With reversed bounds, which no builder rejects, some histogram's tail mean lies on the wrong side of its edge. */
  lemma ReversedBoundsBreakCvar(lo: real, hi: real, n: nat, level: real)
    returns (hist: seq<int>, paths: int, r: RiskLine)
    requires n >= 2 && hi < lo && 0.0 <= level < 1.0
    ensures |hist| == n && Reports(hist, lo, hi, paths, level, r) && r.conditional < r.valueAtRisk
  {
    var a, b := PathsAboveOne(level);
    r := SecondBinReports(a, b, n, lo, hi, level);
    hist, paths := TwoBins(a, b, n), a + b;
    EdgeMeanIsWorse(a, b, lo, hi, n);
  }

  /** The tail mean keeps to its side of the edge at this level exactly when the bounds are not reversed, there is one
      bin, or the level is at least 1; the merge uses 0.95 and 0.99. */
  lemma TailAboveEdgeIff(lo: real, hi: real, n: nat, level: real)
    requires n > 0 && 0.0 <= level
    ensures TailAboveEdge(lo, hi, n, level) <==> lo <= hi || n == 1 || level >= 1.0
  {
    if lo <= hi || n == 1 || level >= 1.0 {
      forall hist, paths, r | |hist| == n && Reports(hist, lo, hi, paths, level, r)
        ensures r.conditional >= r.valueAtRisk
      {
        if lo <= hi {
          CvarAtLeastVar(hist, lo, hi, paths, level, r);
        } else {
          FirstBinSuffices(hist, paths, level);
          FirstBinReports(hist, lo, hi, paths, level, r);
        }
      }
    } else {
      var hist, paths, r := ReversedBoundsBreakCvar(lo, hi, n, level);
    }
  }

  lemma WholeBetween(x: real, y: real) returns (a: nat)
    requires x + 1.0 < y && 0.0 < y
    ensures x <= a as real < y
  {
    a := if x <= 0.0 then 0 else -((-x).Floor);
  }

  /** Enough paths that some whole number lies between the two ranks. */
  lemma CountBetween(level: real, level': real) returns (a: nat, b: nat)
    requires 0.0 <= level < level' && level < 1.0
    ensures TailRank(a + b, level') <= a as real < TailRank(a + b, level)
  {
    var n := Archimedes(level' - level);
    RankGap(n, level, level');
    RankPositive(n, level);
    RankBound(n, level);
    a := WholeBetween(TailRank(n, level'), TailRank(n, level));
    assert a as real <= n as real;
    b := n - a;
  }

  /** A stricter level reports no smaller loss exactly under the same condition. */
  lemma GrowsBetweenIff(lo: real, hi: real, n: nat, level: real, level': real)
    requires n > 0 && 0.0 <= level < level'
    ensures GrowsBetween(lo, hi, n, level, level') <==> lo <= hi || n == 1 || level >= 1.0
  {
    if lo <= hi || n == 1 || level >= 1.0 {
      forall hist, paths, r, r' | |hist| == n && Reports(hist, lo, hi, paths, level, r)
                                  && Reports(hist, lo, hi, paths, level', r')
        ensures r.valueAtRisk <= r'.valueAtRisk && r.conditional <= r'.conditional
      {
        if lo <= hi {
          RiskMonotoneInLevel(hist, lo, hi, paths, level, r, level', r');
        } else {
          FirstBinAtBoth(hist, lo, hi, paths, level, r, level', r');
        }
      }
    } else {
      var a, b := CountBetween(level, level');
      var r := SecondBinReports(a, b, n, lo, hi, level);
      var r' := TwoBinsFirst(a, b, n, lo, hi, level');
      CentersFall(lo, hi, n);
    }
  }

  lemma FirstBinAtBoth(hist: seq<int>, lo: real, hi: real, paths: int,
                       level: real, r: RiskLine, level': real, r': RiskLine)
    requires Reports(hist, lo, hi, paths, level, r) && Reports(hist, lo, hi, paths, level', r')
    requires level <= level' && (|hist| == 1 || level >= 1.0)
    ensures r == r'
  {
    FirstBinSuffices(hist, paths, level);
    FirstBinSuffices(hist, paths, level');
    FirstBinReports(hist, lo, hi, paths, level, r);
    FirstBinReports(hist, lo, hi, paths, level', r');
  }

  lemma TwoBinsFirst(a: nat, b: nat, n: nat, lo: real, hi: real, level: real) returns (r: RiskLine)
    requires n >= 2 && 0.0 <= level && TailRank(a + b, level) <= a as real
    ensures Reports(TwoBins(a, b, n), lo, hi, a + b, level, r)
    ensures r.valueAtRisk == -Center(lo, Width(lo, hi, n), 0)
  {
    var hist, width := TwoBins(a, b, n), Width(lo, hi, n);
    TwoBinsCounts(a, b, n);
    assert LeastBin(hist, TailRank(a + b, level), 0);
    r := RiskLine(-Center(lo, width, 0), -CvarReturn(hist, lo, width, 0, Center(lo, width, 0)));
  }

  /** Both orders, at every level. */
  ghost predicate Ordered(lo: real, hi: real, n: nat) {
    && (forall level :: 0.0 <= level ==> TailAboveEdge(lo, hi, n, level))
    && (forall level, level' :: 0.0 <= level < level' ==> GrowsBetween(lo, hi, n, level, level'))
  }

  /** The merged figures are in order for every histogram and level exactly when the bounds are not reversed, or there
      is one bin. */
  lemma OrderedIffBoundsAre(lo: real, hi: real, n: nat)
    requires n > 0
    ensures Ordered(lo, hi, n) <==> lo <= hi || n == 1
  {
    TailAboveEdgeIff(lo, hi, n, 0.95);
    if lo <= hi || n == 1 {
      forall level | 0.0 <= level
        ensures TailAboveEdge(lo, hi, n, level)
      {
        TailAboveEdgeIff(lo, hi, n, level);
      }
      forall level, level' | 0.0 <= level < level'
        ensures GrowsBetween(lo, hi, n, level, level')
      {
        GrowsBetweenIff(lo, hi, n, level, level');
      }
    }
  }

  datatype Report = Report(paths: int, mean: real, stdev: real, worst: real, hist: seq<int>, risk: seq<RiskLine>)

  /** What the merge promises: nothing usable, the index error of an overlong histogram, or moments, histogram and
      one risk line per level. */
  ghost predicate RiskReport(results: seq<McOut>, root: Root, levels: seq<real>, res: Result<Option<Report>>) {
    var parts := Usable(results);
    if parts == [] then res == Ok(None)
    else if Overlong(parts) then res.Err?
    else
      && res.Ok? && res.value.Some?
      && ReportsOn(MergeTiles(|parts[0].hist|, parts), parts[0].lo, parts[0].hi, root, levels, res.value.value)
  }

  ghost predicate ReportsOn(m: Merged, lo: real, hi: real, root: Root, levels: seq<real>, rep: Report) {
    && rep.paths == m.paths && rep.hist == m.hist && rep.worst == m.worst
    && rep.mean == MergedMean(m) && rep.stdev == root(MergedVariance(m))
    && |rep.risk| == |levels|
    && forall k :: 0 <= k < |levels| ==>
         RiskAt(m.hist, lo, hi, Width(lo, hi, |m.hist|), TailRank(m.paths, levels[k]), rep.risk[k])
  }

  method AggregateMontecarlo(results: seq<McOut>, root: Root, levels: seq<real>) returns (res: Result<Option<Report>>)
    ensures RiskReport(results, root, levels, res)
  {
    var parts := Usable(results);
    var merged := MergeParts(results);
    if merged.Err? {
      return Err(merged.message);
    }
    if parts == [] {
      return Ok(None);
    }
    var m, lo, hi := merged.value, parts[0].lo, parts[0].hi;
    var width := Width(lo, hi, |m.hist|);
    var risk: seq<RiskLine> := [];
    for k := 0 to |levels|
      invariant |risk| == k
      invariant forall j :: 0 <= j < k ==> RiskAt(m.hist, lo, hi, width, TailRank(m.paths, levels[j]), risk[j])
    {
      var line := RiskOf(m.hist, lo, hi, width, m.paths, levels[k]);
      risk := risk + [line];
    }
    return Ok(Some(Report(m.paths, MergedMean(m), root(MergedVariance(m)), m.worst, m.hist, risk)));
  }

  // ---------------------------------------------------------------- the report of honest tiles

  /** The report is that of one machine which drew all of `paths`: its moments, its histogram, its tail figures. */
  ghost predicate ExactReport(root: Root, b: Bins, paths: seq<real>, levels: seq<real>, rep: Report)
    requires b.n > 0
  {
    var s := StatsOf(b, paths);
    && rep.paths == |paths| == s.count && rep.hist == s.hist && rep.worst == s.worst
    && rep.mean == Mean(s) && rep.stdev == root(Variance(s)) && |rep.risk| == |levels|
    && forall k :: 0 <= k < |levels| && 0.0 <= levels[k] ==>
         Reports(s.hist, b.lo, b.hi, |paths|, levels[k], rep.risk[k])
  }

  lemma {:induction false} UsableTiles(root: Root, b: Bins, sims: seq<seq<real>>, outs: seq<McOut>)
    requires b.n > 0 && HonestTiles(root, b, sims, outs)
    ensures forall p :: p in Usable(outs) ==> |p.hist| == b.n && p.lo == b.lo && p.hi == b.hi
    ensures Usable(outs) == [] ==> Flatten(sims) == []
    decreases |outs|
  {
    if outs != [] {
      var n := |outs| - 1;
      UsableTiles(root, b, sims[..n], outs[..n]);
      CountAndSign(b, sims[n]);
      assert outs[n].paths == 0 ==> Flatten(sims) == Flatten(sims[..n]);
    }
  }

  /** Whatever the arrival order of the tiles: once there is a path, the merge succeeds with the exact report. */
  lemma FleetReport(root: Root, b: Bins, sims: seq<seq<real>>, outs: seq<McOut>, levels: seq<real>,
                    res: Result<Option<Report>>)
    requires b.n > 0 && IsRoot(root) && HonestTiles(root, b, sims, outs) && Flatten(sims) != []
    requires RiskReport(outs, root, levels, res)
    ensures res.Ok? && res.value.Some? && ExactReport(root, b, Flatten(sims), levels, res.value.value)
  {
    var parts, s := Usable(outs), StatsOf(b, Flatten(sims));
    UsableTiles(root, b, sims, outs);
    assert parts[0] in parts && forall k :: 0 <= k < |parts| ==> parts[k] in parts;
    assert !Overlong(parts);
    MergeIsHomomorphism(root, b, sims, outs);
    SameMoments(s);
    CountAndSign(b, Flatten(sims));
  }

  /** The tail figures of an exact report are in order when the histogram bounds are. */
  lemma ExactReportIsOrdered(root: Root, b: Bins, paths: seq<real>, levels: seq<real>, rep: Report, i: nat, j: nat)
    requires b.n > 0 && b.lo <= b.hi && ExactReport(root, b, paths, levels, rep)
    requires i < |levels| && j < |levels| && 0.0 <= levels[i] <= levels[j]
    ensures rep.risk[i].valueAtRisk <= rep.risk[i].conditional
    ensures rep.risk[i].valueAtRisk <= rep.risk[j].valueAtRisk && rep.risk[i].conditional <= rep.risk[j].conditional
  {
    var hist := StatsOf(b, paths).hist;
    CvarAtLeastVar(hist, b.lo, b.hi, |paths|, levels[i], rep.risk[i]);
    RiskMonotoneInLevel(hist, b.lo, b.hi, |paths|, levels[i], rep.risk[i], levels[j], rep.risk[j]);
  }
}
