/** How far the reported tail figures are from those of the simulated returns themselves: half a bin at most. */
module RiskAccuracy {
  import opened Base
  import opened MonteCarlo
  import opened Risk

  /** The paths whose return is below x, or at most x. */
  ghost function Under(rets: seq<real>, x: real): set<nat> {
    set k: nat | k < |rets| && rets[k] < x
  }

  ghost function AtMost(rets: seq<real>, x: real): set<nat> {
    set k: nat | k < |rets| && rets[k] <= x
  }

  /** x is the return at that rank: fewer paths than the rank lie below it, and at least as many at or below it. */
  ghost predicate AtRank(rets: seq<real>, rank: real, x: real) {
    x in rets && |Under(rets, x)| as real < rank <= |AtMost(rets, x)| as real
  }

  // ---------------------------------------------------------------- there is one

  lemma {:induction false} Greatest(rets: seq<real>, ks: set<nat>) returns (k: nat)
    requires ks != {} && forall j :: j in ks ==> j < |rets|
    ensures k in ks && forall j :: j in ks ==> rets[j] <= rets[k]
    decreases |ks|
  {
    k :| k in ks;
    if ks != {k} {
      var j := Greatest(rets, ks - {k});
      if rets[k] < rets[j] {
        k := j;
      }
    }
  }

  lemma {:induction false} DownToRank(rets: seq<real>, rank: real, k: nat) returns (x: real)
    requires k < |rets| && 0.0 < rank <= |AtMost(rets, rets[k])| as real
    ensures AtRank(rets, rank, x)
    decreases |AtMost(rets, rets[k])|
  {
    var below := Under(rets, rets[k]);
    if |below| as real < rank {
      return rets[k];
    }
    var j := Greatest(rets, below);
    assert AtMost(rets, rets[j]) == below;
    assert k in AtMost(rets, rets[k]) && below <= AtMost(rets, rets[k]) - {k};
    SubsetCardinality(below, AtMost(rets, rets[k]) - {k});
    x := DownToRank(rets, rank, j);
  }

  /** At every level from 0 up to but not 1 some simulated return is at the rank. */
  lemma SomeReturnAtRank(rets: seq<real>, level: real) returns (x: real)
    requires rets != [] && 0.0 <= level < 1.0
    ensures AtRank(rets, |rets| as real * (1.0 - level), x)
  {
    BelowCardinality(|rets|);
    assert 0 in Below(|rets|);
    var k := Greatest(rets, Below(|rets|));
    assert AtMost(rets, rets[k]) == Below(|rets|);
    RankPositive(|rets|, level);
    RankBound(|rets|, level);
    x := DownToRank(rets, |rets| as real * (1.0 - level), k);
  }

  // ---------------------------------------------------------------- the bins up to one, as paths

  /** The paths counted in bins 0 .. i. */
  ghost function UpTo(b: Bins, rets: seq<real>, i: int): set<nat>
    requires b.n > 0
  {
    set k: nat | k < |rets| && Bucket(b, rets[k]) <= i
  }

  /** The sum of the returns of those paths. */
  function ReturnsUpTo(b: Bins, rets: seq<real>, i: int): real
    requires b.n > 0
  {
    if rets == [] then 0.0
    else
      var last := rets[|rets| - 1];
      ReturnsUpTo(b, rets[..|rets| - 1], i) + if Bucket(b, last) <= i then last else 0.0
  }

  lemma {:induction false} TailCountUpdate(hist: seq<int>, j: nat, i: int)
    requires j < |hist| && -1 <= i < |hist|
    ensures TailCount(hist[j := hist[j] + 1], i) == TailCount(hist, i) + if j <= i then 1 else 0
  {
    if j <= i {
      assert hist[j := hist[j] + 1][..i + 1] == hist[..i + 1][j := hist[j] + 1];
      SumUpdate(hist[..i + 1], j, hist[j] + 1);
    } else {
      assert hist[j := hist[j] + 1][..i + 1] == hist[..i + 1];
    }
  }

  lemma {:induction false} TailSumUpdate(hist: seq<int>, lo: real, width: real, j: nat, i: int)
    requires j < |hist| && -1 <= i < |hist|
    ensures TailSum(hist[j := hist[j] + 1], lo, width, i)
         == TailSum(hist, lo, width, i) + if j <= i then Center(lo, width, j) else 0.0
  {
    if i >= 0 {
      TailSumUpdate(hist, lo, width, j, i - 1);
      if i == j {
        OneMoreWeight(hist[j], Center(lo, width, j));
      }
    }
  }

  lemma OneMoreWeight(n: int, c: real)
    ensures (n + 1) as real * c == n as real * c + c
  {
  }

  lemma {:induction false} TailCountIsPaths(b: Bins, rets: seq<real>, i: int)
    requires b.n > 0 && -1 <= i < b.n
    ensures TailCount(StatsOf(b, rets).hist, i) == |UpTo(b, rets, i)|
  {
    if rets == [] {
      SumZero(NoPaths(b).hist[..i + 1]);
      assert UpTo(b, rets, i) == {};
    } else {
      var n := |rets| - 1;
      TailCountIsPaths(b, rets[..n], i);
      TailCountUpdate(StatsOf(b, rets[..n]).hist, Bucket(b, rets[n]), i);
      var before := UpTo(b, rets[..n], i);
      assert UpTo(b, rets, i) == if Bucket(b, rets[n]) <= i then before + {n} else before;
    }
  }

  /** The tail sum of the bin centres differs from the sum of the returns by at most half a width for each path. */
  ghost predicate Near(n: real, centers: real, rets: real, half: real) {
    -(n * half) <= centers - rets <= n * half
  }

  lemma NearStep(n: real, s: real, t: real, half: real, c: real, ret: real)
    requires Near(n, s, t, half) && -half <= c - ret <= half
    ensures Near(n + 1.0, s + c, t + ret, half)
  {
    assert (n + 1.0) * half == n * half + half;
  }

  /** A return within the bounds is at most half a width away from the centre of its bin. */
  lemma CenterIsNear(lo: real, hi: real, n: nat, ret: real)
    requires lo < hi && n > 0 && lo <= ret <= hi
    ensures var width := (hi - lo) / n as real;
            -(width / 2.0) <= Center(lo, width, Bucket(MakeBins(lo, hi, n), ret)) - ret <= width / 2.0
  {
    var width, i := (hi - lo) / n as real, Bucket(MakeBins(lo, hi, n), ret);
    assert width > 0.0;
    BucketHolds(MakeBins(lo, hi, n), lo, hi, n, ret);
    OuterEdges(lo, hi, n);
    NextEdge(lo, width, i);
    EdgesRise(lo, width, 0, i);
    EdgesRise(lo, width, i + 1, n);
    CenterOfEdges(lo, width, i);
  }

  lemma CenterOfEdges(lo: real, width: real, i: int)
    ensures Center(lo, width, i) == Edge(lo, width, i) + width / 2.0
  {
    assert (i as real + 0.5) * width == i as real * width + width / 2.0;
  }

  lemma {:induction false} TailSumIsNear(lo: real, hi: real, n: nat, rets: seq<real>, i: int)
    requires lo < hi && n > 0 && -1 <= i < n && forall r :: r in rets ==> lo <= r <= hi
    ensures var b, width := MakeBins(lo, hi, n), (hi - lo) / n as real;
            Near(|UpTo(b, rets, i)| as real, TailSum(StatsOf(b, rets).hist, lo, width, i), ReturnsUpTo(b, rets, i),
                 width / 2.0)
  {
    var b, width := MakeBins(lo, hi, n), (hi - lo) / n as real;
    if rets == [] {
      EmptySums(b, lo, width, i);
      assert UpTo(b, rets, i) == {};
    } else {
      var last := |rets| - 1;
      var before, hist, j := UpTo(b, rets[..last], i), StatsOf(b, rets[..last]).hist, Bucket(b, rets[last]);
      assert rets[last] in rets && forall r :: r in rets[..last] ==> r in rets;
      TailSumIsNear(lo, hi, n, rets[..last], i);
      TailSumUpdate(hist, lo, width, j, i);
      CenterIsNear(lo, hi, n, rets[last]);
      assert UpTo(b, rets, i) == if j <= i then before + {last} else before;
      if j <= i {
        NearStep(|before| as real, TailSum(hist, lo, width, i), ReturnsUpTo(b, rets[..last], i), width / 2.0,
                 Center(lo, width, j), rets[last]);
      }
    }
  }

  lemma {:induction false} EmptySums(b: Bins, lo: real, width: real, i: int)
    requires b.n > 0 && -1 <= i < b.n
    ensures TailSum(NoPaths(b).hist, lo, width, i) == 0.0
  {
    if i >= 0 {
      EmptySums(b, lo, width, i - 1);
    }
  }

  // ---------------------------------------------------------------- the reported figures

  lemma BucketsRise(lo: real, hi: real, n: nat, x: real, y: real)
    requires lo < hi && n > 0 && x <= y
    ensures Bucket(MakeBins(lo, hi, n), x) <= Bucket(MakeBins(lo, hi, n), y)
  {
    var b, width := MakeBins(lo, hi, n), (hi - lo) / n as real;
    var i, j := Bucket(b, y), Bucket(b, x);
    BucketHolds(b, lo, hi, n, x);
    BucketHolds(b, lo, hi, n, y);
    assert width > 0.0;
    if i < j {
      EdgesRise(lo, width, i + 1, j);
    }
  }

  /** The scan stops at the bin that holds the return at the rank. */
  lemma EdgeHoldsTheReturn(lo: real, hi: real, n: nat, rets: seq<real>, rank: real, i: int, x: real)
    requires lo < hi && n > 0 && AtRank(rets, rank, x)
    requires LeastBin(StatsOf(MakeBins(lo, hi, n), rets).hist, rank, i)
    ensures Bucket(MakeBins(lo, hi, n), x) == i
  {
    var b := MakeBins(lo, hi, n);
    forall y | y in rets
      ensures y <= x ==> Bucket(b, y) <= Bucket(b, x)
      ensures y >= x ==> Bucket(b, y) >= Bucket(b, x)
    {
      if y <= x {
        BucketsRise(lo, hi, n, y, x);
      }
      if x <= y {
        BucketsRise(lo, hi, n, x, y);
      }
    }
    TailCountIsPaths(b, rets, i);
    TailCountIsPaths(b, rets, i - 1);
    if i < Bucket(b, x) {
      assert UpTo(b, rets, i) <= Under(rets, x);
      SubsetCardinality(UpTo(b, rets, i), Under(rets, x));
    } else if Bucket(b, x) < i {
      assert AtMost(rets, x) <= UpTo(b, rets, i - 1);
      SubsetCardinality(AtMost(rets, x), UpTo(b, rets, i - 1));
    }
  }

  /** The return lies below the upper edge of bin i, or that bin is the last. */
  ghost predicate InTail(lo: real, hi: real, n: nat, i: nat, ret: real)
    requires n > 0
  {
    i >= n - 1 || ret < Edge(lo, (hi - lo) / n as real, i + 1)
  }

  lemma BucketInTail(lo: real, hi: real, n: nat, i: nat, ret: real)
    requires lo < hi && i < n
    ensures Bucket(MakeBins(lo, hi, n), ret) <= i <==> InTail(lo, hi, n, i, ret)
  {
    var j, width := Bucket(MakeBins(lo, hi, n), ret), (hi - lo) / n as real;
    BucketHolds(MakeBins(lo, hi, n), lo, hi, n, ret);
    assert width > 0.0;
    if i < j {
      EdgesRise(lo, width, i + 1, j);
    } else {
      EdgesRise(lo, width, j + 1, i + 1);
    }
  }

  /** The paths of the tail, and the sum of their returns. */
  ghost function Tail(lo: real, hi: real, n: nat, i: nat, rets: seq<real>): set<nat>
    requires n > 0
  {
    set k: nat | k < |rets| && InTail(lo, hi, n, i, rets[k])
  }

  ghost function TailReturns(lo: real, hi: real, n: nat, i: nat, rets: seq<real>): real
    requires n > 0
  {
    if rets == [] then 0.0
    else
      var last := rets[|rets| - 1];
      TailReturns(lo, hi, n, i, rets[..|rets| - 1]) + if InTail(lo, hi, n, i, last) then last else 0.0
  }

  lemma {:induction false} TailIsUpTo(lo: real, hi: real, n: nat, i: nat, rets: seq<real>)
    requires lo < hi && i < n
    ensures UpTo(MakeBins(lo, hi, n), rets, i) == Tail(lo, hi, n, i, rets)
    ensures ReturnsUpTo(MakeBins(lo, hi, n), rets, i) == TailReturns(lo, hi, n, i, rets)
  {
    forall k | 0 <= k < |rets|
      ensures Bucket(MakeBins(lo, hi, n), rets[k]) <= i <==> InTail(lo, hi, n, i, rets[k])
    {
      BucketInTail(lo, hi, n, i, rets[k]);
    }
    if rets != [] {
      TailIsUpTo(lo, hi, n, i, rets[..|rets| - 1]);
    }
  }

  lemma MeansAreNear(m: real, centers: real, rets: real, half: real)
    requires m > 0.0 && Near(m, centers, rets, half)
    ensures -half <= -(rets / m) - -(centers / m) <= half
  {
    var gap := (centers - rets) / m;
    assert gap * m == centers - rets;
    assert (half - gap) * m == m * half - gap * m && (gap + half) * m == gap * m + m * half;
    assert centers / m - rets / m == gap;
  }

  lemma EdgeIsNear(lo: real, hi: real, n: nat, rets: seq<real>, i: nat, x: real)
    returns (m: real, centers: real)
    requires lo < hi && n > 0 && x in rets && forall ret :: ret in rets ==> lo <= ret <= hi
    requires i == Bucket(MakeBins(lo, hi, n), x)
    ensures i < n && InBin(lo, (hi - lo) / n as real, n, i, x) && m == |Tail(lo, hi, n, i, rets)| as real > 0.0
    ensures var hist, width := StatsOf(MakeBins(lo, hi, n), rets).hist, Width(lo, hi, n);
            && TailCount(hist, i) as real == m && centers == TailSum(hist, lo, width, i)
            && Near(m, centers, TailReturns(lo, hi, n, i, rets), width / 2.0)
            && -(width / 2.0) <= Center(lo, width, i) - x <= width / 2.0
  {
    var b := MakeBins(lo, hi, n);
    BucketHolds(b, lo, hi, n, x);
    CenterIsNear(lo, hi, n, x);
    TailCountIsPaths(b, rets, i);
    TailIsUpTo(lo, hi, n, i, rets);
    TailSumIsNear(lo, hi, n, rets, i);
    m, centers := |Tail(lo, hi, n, i, rets)| as real, TailSum(StatsOf(b, rets).hist, lo, Width(lo, hi, n), i);
    var k :| 0 <= k < |rets| && rets[k] == x;
    assert k in UpTo(b, rets, i);
  }

  /** For simulated returns within the bounds and a level below 1: the value at risk is within half a bin of the loss at
      the rank, and the conditional value at risk within half a bin of the mean loss of the tail up to that bin. */
  lemma ReportedRiskIsNear(lo: real, hi: real, n: nat, rets: seq<real>, level: real, r: RiskLine, x: real)
    returns (i: nat, meanLoss: real)
    requires lo < hi && n > 0 && 0.0 <= level && forall ret :: ret in rets ==> lo <= ret <= hi
    requires Reports(StatsOf(MakeBins(lo, hi, n), rets).hist, lo, hi, |rets|, level, r)
    requires AtRank(rets, |rets| as real * (1.0 - level), x)
    ensures i < n && InBin(lo, (hi - lo) / n as real, n, i, x) && Tail(lo, hi, n, i, rets) != {}
    ensures meanLoss == -(TailReturns(lo, hi, n, i, rets) / |Tail(lo, hi, n, i, rets)| as real)
    ensures var half := (hi - lo) / n as real / 2.0;
            -half <= r.valueAtRisk - -x <= half && -half <= meanLoss - r.conditional <= half
  {
    i := EdgeOf(lo, hi, n, rets, level, r, x);
    var m, centers := EdgeIsNear(lo, hi, n, rets, i, x);
    meanLoss := -(TailReturns(lo, hi, n, i, rets) / m);
    MeansAreNear(m, centers, TailReturns(lo, hi, n, i, rets), (hi - lo) / n as real / 2.0);
  }

  lemma EdgeOf(lo: real, hi: real, n: nat, rets: seq<real>, level: real, r: RiskLine, x: real) returns (i: nat)
    requires lo < hi && n > 0 && 0.0 <= level
    requires Reports(StatsOf(MakeBins(lo, hi, n), rets).hist, lo, hi, |rets|, level, r)
    requires AtRank(rets, |rets| as real * (1.0 - level), x)
    ensures var hist, width := StatsOf(MakeBins(lo, hi, n), rets).hist, Width(lo, hi, n);
            && i == Bucket(MakeBins(lo, hi, n), x) < n
            && r.valueAtRisk == -Center(lo, width, i)
            && r.conditional == -CvarReturn(hist, lo, width, i, Center(lo, width, i))
  {
    var hist, width, rank := StatsOf(MakeBins(lo, hi, n), rets).hist, Width(lo, hi, n), TailRank(|rets|, level);
    RankIsReached(hist, |rets|, level);
    i :| LeastBin(hist, rank, i) && r.valueAtRisk == -Center(lo, width, i)
         && r.conditional == -CvarReturn(hist, lo, width, i, Center(lo, width, i));
    EdgeHoldsTheReturn(lo, hi, n, rets, rank, i, x);
  }
}
