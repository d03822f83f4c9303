/** The weighted splitters of src/workloads/partition.py: ranges, repaired counts, equal weights. */
module Apportion {
  import opened Base
  import opened Partition

  /** `total * w / weight_sum` as the machine computes it. */
  type Rounded = (int, real, real) -> real

  function ExactShare(total: int, w: real, weightSum: real): real {
    if weightSum == 0.0 then 0.0 else total as real * w / weightSum
  }

  ghost predicate KeepsSign(share: Rounded) {
    forall t: int, w: real, ws: real {:trigger share(t, w, ws)} ::
      0 <= t && 0.0 <= w && 0.0 < ws ==> 0.0 <= share(t, w, ws)
  }

  function Shares(share: Rounded, total: int, weights: seq<real>): (s: seq<real>)
    ensures |s| == |weights|
  {
    seq(|weights|, i requires 0 <= i < |weights| => share(total, weights[i], SumR(weights)))
  }

  function ExactShares(total: int, weights: seq<real>): seq<real> {
    Shares((t, w, s) => ExactShare(t, w, s), total, weights)
  }

  /** The `ValueError` of the guards, in the order the source checks them. */
  function Rejection(what: string, total: int, weights: seq<real>): Option<string> {
    if weights == [] then Some("weights must be non-empty")
    else if total < 0 then Some(what + " must be non-negative")
    else if exists i :: 0 <= i < |weights| && weights[i] < 0.0 then Some("weights must be non-negative")
    else if SumR(weights) <= 0.0 then Some("weights must sum to a positive value")
    else None
  }

  /** The guards let through exactly a non-empty list of non-negative weights, one of them positive, and a non-negative
      total; the first that fails names the error. */
  lemma RejectionIff(what: string, total: int, weights: seq<real>)
    ensures var bad := Rejection(what, total, weights);
            && (bad.None? <==>
                  weights != [] && total >= 0 && (forall w :: w in weights ==> w >= 0.0) && SumR(weights) > 0.0)
            && (bad == Some("weights must be non-empty") <==> weights == [])
            && (weights != [] && total < 0 ==> bad == Some(what + " must be non-negative"))
            && (weights != [] && total >= 0 && (exists w :: w in weights && w < 0.0) ==>
                  bad == Some("weights must be non-negative"))
  {
    if i :| 0 <= i < |weights| && weights[i] < 0.0 {
      assert weights[i] in weights;
    }
    if total < 0 {
      assert (what + " must be non-negative")[|what|..] == " must be non-negative";
      assert "weights must be non-empty"[|"weights must be non-empty"| - 1] == 'y';
    }
  }

  /** Exact shares add up to the total. */
  lemma ExactSharesSum(total: int, weights: seq<real>)
    requires SumR(weights) > 0.0
    ensures SumR(ExactShares(total, weights)) == total as real
  {
    ScaledSum(total as real, weights, SumR(weights), ExactShares(total, weights));
    assert total as real * SumR(weights) / SumR(weights) == total as real;
  }

  lemma {:induction false} ScaledSum(t: real, weights: seq<real>, ws: real, shares: seq<real>)
    requires ws > 0.0 && |shares| == |weights|
    requires forall i :: 0 <= i < |shares| ==> shares[i] == t * weights[i] / ws
    ensures SumR(shares) == t * SumR(weights) / ws
  {
    if weights != [] {
      forall i | 0 <= i < |shares[1..]|
        ensures shares[1..][i] == t * weights[1..][i] / ws
      {
        assert shares[1..][i] == shares[i + 1] && weights[1..][i] == weights[i + 1];
      }
      ScaledSum(t, weights[1..], ws, shares[1..]);
      ScaleAdds(t, weights[0], SumR(weights[1..]), ws);
    }
  }

  lemma ScaleAdds(t: real, a: real, b: real, ws: real)
    requires ws > 0.0
    ensures t * (a + b) / ws == t * a / ws + t * b / ws
  {
    var x, y := t * a / ws, t * b / ws;
    assert x * ws == t * a && y * ws == t * b;
    assert t * (a + b) == t * a + t * b;
    assert (x + y) * ws == x * ws + y * ws;
    assert t * (a + b) / ws == (x + y) * ws / ws;
  }

  /** Flooring and the leftover loop, shared by both splitters. */
  method HandOut(total: int, shares: seq<real>) returns (counts: seq<int>)
    ensures counts == LargestRemainder(total, shares)
  {
    counts := Floors(shares);
    var taken := PyTake(ByRemainder(shares, |shares|), total - Sum(counts));
    assert taken == Chosen(total, shares);
    for p := 0 to |taken|
      invariant |counts| == |shares|
      invariant counts == BumpAll(Floors(shares), taken[..p])
    {
      assert taken[..p + 1][..p] == taken[..p];
      counts := counts[taken[p] := counts[taken[p]] + 1];
    }
    assert taken[..|taken|] == taken;
  }

  lemma SizesNonNegative(total: int, shares: seq<real>)
    requires NonNegative(shares)
    ensures forall i :: 0 <= i < |shares| ==> 0 <= LargestRemainder(total, shares)[i]
  {
    forall i | 0 <= i < |shares|
      ensures 0 <= LargestRemainder(total, shares)[i]
    {
      LargestRemainderAt(total, shares, i);
    }
  }

  /** Contiguous ranges of the apportioned sizes; they cover the work exactly when the leftover fits. */
  method WeightedRanges(total: int, weights: seq<real>, share: Rounded) returns (res: Result<seq<Range>>)
    requires KeepsSign(share)
    ensures Rejection("total", total, weights).Some? ==> res == Err(Rejection("total", total, weights).value)
    ensures Rejection("total", total, weights).None? ==>
              var shares := Shares(share, total, weights);
              && res.Ok? && Sizes(res.value) == LargestRemainder(total, shares)
              && Covers(res.value, 0, Sum(Sizes(res.value)))
              && (LeftoverFits(total, shares) <==> Covers(res.value, 0, total))
  {
    var bad := Rejection("total", total, weights);
    if bad.Some? {
      return Err(bad.value);
    }
    var shares := Shares(share, total, weights);
    assert NonNegative(shares);
    SizesNonNegative(total, shares);
    var floors := HandOut(total, shares);
    var ranges := LayRanges(floors);
    SizesAddUp(ranges, 0, Sum(floors));
    SumIsTotalIffLeftoverFits(total, shares);
    if Covers(ranges, 0, total) {
      SizesAddUp(ranges, 0, total);
    }
    return Ok(ranges);
  }

  /** The loop that lays the sizes end to end. */
  method LayRanges(sizes: seq<int>) returns (ranges: seq<Range>)
    requires forall i :: 0 <= i < |sizes| ==> 0 <= sizes[i]
    ensures Sizes(ranges) == sizes && Covers(ranges, 0, Sum(sizes))
  {
    ranges := [];
    var start := 0;
    for k := 0 to |sizes|
      invariant |ranges| == k && Covers(ranges, 0, start)
      invariant start == Sum(sizes[..k])
      invariant forall i :: 0 <= i < k ==> ranges[i].Size() == sizes[i]
    {
      SumPrefix(sizes, k);
      CoversAppend(ranges, 0, start, start + sizes[k]);
      ranges := ranges + [Range(start, start + sizes[k])];
      start := start + sizes[k];
    }
    assert sizes[..|sizes|] == sizes;
  }

  /** The leftover fits, and so the ranges cover the work, when each computed share is within `delta` of the exact
      one. */
  lemma CoverUnderRounding(total: nat, weights: seq<real>, share: Rounded, delta: real)
    requires weights != [] && SumR(weights) > 0.0
    requires Within(delta, Shares(share, total, weights), ExactShares(total, weights))
    requires Drift(|weights|, delta) < 1.0
    ensures LeftoverFits(total, Shares(share, total, weights))
  {
    ExactSharesSum(total, weights);
    RoundedSharesFit(total, delta, Shares(share, total, weights), ExactShares(total, weights));
  }

  // ---------------------------------------------------------------- repaired counts

  function Zeros(counts: seq<int>): set<nat> {
    set i: nat | i < |counts| && counts[i] == 0
  }

  /** `max(range(n), key=lambda i: (counts[i], -i))`. */
  method LargestHolder(counts: seq<int>) returns (d: nat)
    requires counts != []
    ensures d < |counts|
    ensures forall i :: 0 <= i < |counts| ==> counts[i] <= counts[d]
    ensures forall i :: 0 <= i < d ==> counts[i] < counts[d]
  {
    d := 0;
    for i := 1 to |counts|
      invariant d < |counts|
      invariant forall k :: 0 <= k < i ==> counts[k] <= counts[d]
      invariant forall k :: 0 <= k < d ==> counts[k] < counts[d]
    {
      if counts[i] > counts[d] {
        d := i;
      }
    }
  }

  /** `min(zeros)`, or the number of shares when there is no zero share. */
  method FirstZero(counts: seq<int>) returns (z: nat)
    ensures z <= |counts|
    ensures z < |counts| ==> counts[z] == 0
    ensures forall i :: 0 <= i < z ==> counts[i] != 0
  {
    z := 0;
    while z < |counts| && counts[z] != 0
      invariant z <= |counts|
      invariant forall i :: 0 <= i < z ==> counts[i] != 0
    {
      z := z + 1;
    }
  }

  lemma {:induction false} SumAtMost(counts: seq<int>)
    requires forall i :: 0 <= i < |counts| ==> counts[i] <= 1
    ensures Sum(counts) <= |counts|
    ensures (exists i :: 0 <= i < |counts| && counts[i] == 0) ==> Sum(counts) < |counts|
  {
    if counts != [] {
      SumAtMost(counts[1..]);
      if i :| 0 <= i < |counts| && counts[i] == 0 {
        assert i > 0 ==> counts[1..][i - 1] == 0;
      }
    }
  }

  /** What the repair loop may do to the apportioned counts: raise zeros to one, borrowing from the largest, the lowest
      index first among equals. */
  ghost predicate Repaired(counts: seq<int>, r: seq<int>) {
    && |r| == |counts| && Sum(r) == Sum(counts)
    && (forall i :: 0 <= i < |r| ==> if counts[i] == 0 then 0 <= r[i] <= 1 else 1 <= r[i] <= counts[i])
    && (forall i, j :: 0 <= i < |r| && 0 <= j < |r| && r[i] < counts[i] ==> r[j] <= r[i] + 1)
    && (forall i, j :: 0 <= i < j < |r| && r[j] < counts[j] ==> r[i] <= r[j])
  }

  /** One unit lent by the first of the largest shares to a zero one. */
  lemma Lending(counts: seq<int>, r: seq<int>, donor: nat, z: nat)
    requires Repaired(counts, r) && donor < |r| && z < |r| && r[z] == 0 && r[donor] > 1
    requires forall i :: 0 <= i < |counts| ==> 0 <= counts[i]
    requires forall i :: 0 <= i < |r| ==> r[i] <= r[donor] && (i < donor ==> r[i] < r[donor])
    ensures var lent := r[donor := r[donor] - 1][z := 1]; Repaired(counts, lent) && Zeros(lent) == Zeros(r) - {z}
  {
    SumUpdate(r, donor, r[donor] - 1);
    SumUpdate(r[donor := r[donor] - 1], z, 1);
  }

  /** The repair loop; its measure is the number of zero shares. */
  method Repair(counts: seq<int>) returns (r: seq<int>)
    requires counts != [] && forall i :: 0 <= i < |counts| ==> 0 <= counts[i]
    ensures Repaired(counts, r)
    ensures |counts| <= Sum(counts) ==> forall i :: 0 <= i < |r| ==> 1 <= r[i]
  {
    r := counts;
    while true
      invariant Repaired(counts, r)
      decreases |Zeros(r)|
    {
      var z := FirstZero(r);
      if z == |r| {
        break;
      }
      var donor := LargestHolder(r);
      if r[donor] <= 1 {
        SumAtMost(r);  // so the total is below the number of shares: unreachable for the caller
        break;
      }
      Lending(counts, r, donor, z);
      r := r[donor := r[donor] - 1][z := 1];
    }
  }

  /** That leaves no choice: the repaired counts are determined once every share has its unit. */
  lemma RepairIsDetermined(counts: seq<int>, r: seq<int>, q: seq<int>)
    requires Repaired(counts, r) && Repaired(counts, q)
    requires forall i :: 0 <= i < |counts| ==> 0 <= counts[i] && 1 <= r[i] && 1 <= q[i]
    ensures r == q
  {
    if r != q {
      var i, j := DiffersBothWays(r, q);
    }
  }

  /** Integer shares proportional to the weights, at least one each once there is enough to go round. */
  method WeightedPartition(total: int, weights: seq<real>, share: Rounded) returns (res: Result<seq<int>>)
    requires KeepsSign(share)
    ensures Rejection("total_units", total, weights).Some? ==>
              res == Err(Rejection("total_units", total, weights).value)
    ensures Rejection("total_units", total, weights).None? ==>
              var shares := Shares(share, total, weights);
              && res.Ok?
              && (total < |weights| ==> res.value == LargestRemainder(total, shares))
              && (total >= |weights| ==> Repaired(LargestRemainder(total, shares), res.value))
              && (LeftoverFits(total, shares) ==>
                    && Sum(res.value) == total
                    && (total >= |weights| ==> forall i :: 0 <= i < |res.value| ==> 1 <= res.value[i]))
  {
    var bad := Rejection("total_units", total, weights);
    if bad.Some? {
      return Err(bad.value);
    }
    var shares := Shares(share, total, weights);
    assert NonNegative(shares);
    SizesNonNegative(total, shares);
    SumIsTotalIffLeftoverFits(total, shares);
    var counts := HandOut(total, shares);
    if total >= |weights| {
      counts := Repair(counts);
    }
    return Ok(counts);
  }

  /** When there is too little to go round, it is the lightest shares that stay at zero. */
  lemma ZeroSharesAreLightest(total: nat, weights: seq<real>, i: nat, j: nat)
    requires SumR(weights) > 0.0 && i < |weights| && j < |weights|
    requires forall k :: 0 <= k < |weights| ==> 0.0 <= weights[k]
    ensures var sizes := LargestRemainder(total, ExactShares(total, weights));
            sizes[i] == 0 && sizes[j] > 0 ==> weights[i] <= weights[j]
  {
    var shares := ExactShares(total, weights);
    if weights[i] > weights[j] && LargestRemainder(total, shares)[j] > 0 {
      ExactSharesNonNegative(total, weights);
      ExactSharesSum(total, weights);
      SomeShareIsPositive(total, shares, j);
      HeavierShareIsLarger(total, weights, i, j);
      LargerShareFirst(total, shares, i, j);
    }
  }

  lemma HeavierShareIsLarger(total: nat, weights: seq<real>, i: nat, j: nat)
    requires total > 0 && SumR(weights) > 0.0 && i < |weights| && j < |weights| && weights[j] < weights[i]
    ensures ExactShares(total, weights)[j] < ExactShares(total, weights)[i]
  {
    ScaleStrict(total as real, weights[j], weights[i], SumR(weights));
  }

  lemma SomeShareIsPositive(total: nat, shares: seq<real>, j: nat)
    requires j < |shares| && NonNegative(shares) && SumR(shares) == total as real
    requires LargestRemainder(total, shares)[j] > 0
    ensures total > 0
  {
    ExactLeftoverFits(total, shares);
    SizesNonNegative(total, shares);
    SumNonNegative(LargestRemainder(total, shares));
    SumIsTotalIffLeftoverFits(total, shares);
  }

  lemma ExactSharesNonNegative(total: nat, weights: seq<real>)
    requires SumR(weights) > 0.0
    requires forall k :: 0 <= k < |weights| ==> 0.0 <= weights[k]
    ensures NonNegative(ExactShares(total, weights))
  {
    forall k | 0 <= k < |weights|
      ensures 0.0 <= ExactShares(total, weights)[k]
    {
      ScaleMonotone(total as real, weights[k], weights[k], SumR(weights));
      assert ExactShares(total, weights)[k] == total as real * weights[k] / SumR(weights);
    }
  }

  lemma LargerShareFirst(total: nat, shares: seq<real>, i: nat, j: nat)
    requires i < |shares| && j < |shares| && 0.0 <= shares[j] < shares[i]
    requires LargestRemainder(total, shares)[j] > 0
    ensures LargestRemainder(total, shares)[i] > 0
  {
    LargestRemainderAt(total, shares, i);
    LargestRemainderAt(total, shares, j);
    if shares[i].Floor == 0 && i !in Chosen(total, shares) {
      ChosenBeforeUnchosen(total, shares, j, i);
    }
  }

  lemma ScaleMonotone(t: real, w: real, v: real, s: real)
    requires 0.0 <= t && 0.0 <= w <= v && s > 0.0
    ensures 0.0 <= t * w / s <= t * v / s
  {
    assert 0.0 <= t * w <= t * v;
  }

  lemma ScaleStrict(t: real, w: real, v: real, s: real)
    requires 0.0 < t && w < v && s > 0.0
    ensures t * w / s < t * v / s
  {
    assert t * (v - w) > 0.0;
    assert t * v / s - t * w / s == t * (v - w) / s;
  }

  // ---------------------------------------------------------------- equal weights

  lemma {:induction false} SumConstant(weights: seq<real>, w: real)
    requires forall i :: 0 <= i < |weights| ==> weights[i] == w
    ensures SumR(weights) == |weights| as real * w
  {
    if weights != [] {
      SumConstant(weights[1..], w);
      assert |weights| as real * w == |weights[1..]| as real * w + w;
    }
  }

  lemma {:induction false} SumEqualInts(s: seq<int>, v: int)
    requires forall i :: 0 <= i < |s| ==> s[i] == v
    ensures Sum(s) == |s| * v
  {
    if s != [] {
      SumEqualInts(s[1..], v);
      assert |s| * v == |s[1..]| * v + v;
    }
  }

  lemma FloorOfRatio(total: nat, n: nat)
    requires n > 0
    ensures (total as real / n as real).Floor == total / n
  {
    var q, r := total / n, total % n;
    assert total == n * q + r;
    assert total as real == n as real * q as real + r as real;
    assert total as real / n as real == q as real + r as real / n as real;
    assert 0.0 <= r as real / n as real < 1.0;
  }

  lemma EqualShare(total: nat, n: nat, w: real)
    requires n > 0 && w > 0.0
    ensures ExactShare(total, w, n as real * w) == total as real / n as real
  {
    assert n as real * w > 0.0;
  }

  /** An ascending list without repetition of all indices below k is 0, 1, .., k-1. */
  lemma {:induction false} AscendingIsIota(order: seq<nat>, k: nat)
    requires |order| == k && forall y: nat :: y in order <==> y < k
    requires forall a, b :: 0 <= a < b < |order| ==> order[a] < order[b]
    ensures order == Iota(k)
  {
    if k > 0 {
      var last := order[k - 1];
      assert k - 1 in order;
      assert order[k - 1] in order;
      assert last == k - 1;
      var init := order[..k - 1];
      assert order == init + [last];
      forall y: nat
        ensures y in init <==> y < k - 1
      {
        if y in init {
          var a :| 0 <= a < k - 1 && init[a] == y;
          assert order[a] < order[k - 1];
        }
        if y < k - 1 {
          assert y in order;
        }
      }
      AscendingIsIota(init, k - 1);
      assert Iota(k) == Iota(k - 1) + [k - 1];
    }
  }

  /** With equal weights the weighted split is exactly the even split. */
  lemma EqualWeightsSplitEvenly(total: nat, weights: seq<real>, w: real)
    requires weights != [] && w > 0.0 && forall i :: 0 <= i < |weights| ==> weights[i] == w
    ensures LargestRemainder(total, ExactShares(total, weights)) == EvenSizes(total, |weights|)
    ensures LeftoverFits(total, ExactShares(total, weights))
  {
    var n, shares := |weights|, ExactShares(total, weights);
    SumConstant(weights, w);
    EqualShare(total, n, w);
    FloorOfRatio(total, n);
    var q, extra := total / n, total % n;
    assert forall i :: 0 <= i < n ==> shares[i] == total as real / n as real;
    SumEqualInts(Floors(shares), q);
    assert Leftover(total, shares) == extra;
    var order := ByRemainder(shares, n);
    ByRemainderRanks(shares, n);
    forall a, b | 0 <= a < b < n
      ensures order[a] < order[b]
    {
      assert Precedes(shares, order[a], order[b]);
      assert Frac(shares, order[a]) == Frac(shares, order[b]);
    }
    AscendingIsIota(order, n);
    assert Chosen(total, shares) == order[..extra];
    EvenlyCounted(total, shares, n, q, extra);
  }

  lemma EvenlyCounted(total: nat, shares: seq<real>, n: nat, q: int, extra: nat)
    requires n > 0 && |shares| == n && extra <= n && q == total / n && extra == total % n
    requires forall i :: 0 <= i < n ==> shares[i].Floor == q
    requires Chosen(total, shares) == Iota(n)[..extra]
    ensures LargestRemainder(total, shares) == EvenSizes(total, n)
  {
    var mine, even := LargestRemainder(total, shares), EvenSizes(total, n);
    forall i | 0 <= i < n
      ensures mine[i] == even[i]
    {
      LargestRemainderAt(total, shares, i);
      assert i < extra ==> Iota(n)[..extra][i] == i;
      assert i in Iota(n)[..extra] <==> i < extra;
      assert even[i] == LaidSize(q, extra, i);
    }
  }

  /** The repair loop has nothing to do on the even split of enough work. */
  lemma EqualWeightsNeedNoRepair(total: nat, n: nat, r: seq<int>)
    requires 0 < n <= total && Repaired(EvenSizes(total, n), r)
    ensures r == EvenSizes(total, n)
  {
    assert total / n >= 1;
    SameSumBelow(EvenSizes(total, n), r);
  }
}
