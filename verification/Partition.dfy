/** Work splitting (src/workloads/partition.py): even ranges, largest-remainder ranges, repaired counts.

    A share that the source computes in floating point is a parameter here (`shares`); exact shares
    are one instance of it, and RoundedShares says what rounding the apportionment survives. */
module Partition {
  import opened Base

  /** A half-open range [start, end). */
  datatype Range = Range(start: int, end: int) {
    function Size(): int { end - start }
    predicate Has(x: int) { start <= x < end }
  }

  /** `ranges` run from `lo` to `hi` without gap or overlap, in order. */
  ghost predicate Covers(ranges: seq<Range>, lo: int, hi: int)
    decreases |ranges|
  {
    if ranges == [] then lo == hi
    else
      && ranges[0].start == lo <= ranges[0].end
      && Covers(ranges[1..], ranges[0].end, hi)
  }

  lemma {:induction false} CoversAppend(ranges: seq<Range>, lo: int, mid: int, end: int)
    requires Covers(ranges, lo, mid) && mid <= end
    ensures Covers(ranges + [Range(mid, end)], lo, end)
    decreases |ranges|
  {
    var all := ranges + [Range(mid, end)];
    if ranges == [] {
      assert all[1..] == [];
    } else {
      CoversAppend(ranges[1..], ranges[0].end, mid, end);
      assert all[1..] == ranges[1..] + [Range(mid, end)];
    }
  }

  lemma {:induction false} CoversBounds(ranges: seq<Range>, lo: int, hi: int)
    requires Covers(ranges, lo, hi)
    ensures lo <= hi
    ensures forall i :: 0 <= i < |ranges| ==> lo <= ranges[i].start <= ranges[i].end <= hi
    decreases |ranges|
  {
    if ranges != [] {
      CoversBounds(ranges[1..], ranges[0].end, hi);
      forall i | 0 <= i < |ranges|
        ensures lo <= ranges[i].start <= ranges[i].end <= hi
      {
        if i > 0 {
          assert ranges[i] == ranges[1..][i - 1];
        }
      }
    }
  }

  /** Every unit of work lies in one range and in no other. */
  lemma {:induction false} ExactCover(ranges: seq<Range>, lo: int, hi: int, x: int) returns (k: nat)
    requires Covers(ranges, lo, hi) && lo <= x < hi
    ensures k < |ranges| && ranges[k].Has(x)
    ensures forall i :: 0 <= i < |ranges| && ranges[i].Has(x) ==> i == k
    decreases |ranges|
  {
    CoversBounds(ranges[1..], ranges[0].end, hi);
    if x < ranges[0].end {
      k := 0;
      forall i | 0 < i < |ranges|
        ensures !ranges[i].Has(x)
      {
        assert ranges[i] == ranges[1..][i - 1];
      }
    } else {
      var j := ExactCover(ranges[1..], ranges[0].end, hi, x);
      k := j + 1;
      forall i | 0 <= i < |ranges| && ranges[i].Has(x)
        ensures i == k
      {
        if i > 0 {
          assert ranges[i] == ranges[1..][i - 1];
        }
      }
    }
  }

  /** Dropping empty ranges, as every builder does, loses no work. */
  function NonEmpty(ranges: seq<Range>): seq<Range> {
    if ranges == [] then []
    else if ranges[0].end <= ranges[0].start then NonEmpty(ranges[1..])
    else [ranges[0]] + NonEmpty(ranges[1..])
  }

  lemma {:induction false} NonEmptyCovers(ranges: seq<Range>, lo: int, hi: int)
    requires Covers(ranges, lo, hi)
    ensures Covers(NonEmpty(ranges), lo, hi)
    ensures forall r :: r in NonEmpty(ranges) ==> r in ranges && r.start < r.end
    decreases |ranges|
  {
    if ranges != [] {
      NonEmptyCovers(ranges[1..], ranges[0].end, hi);
      if ranges[0].start < ranges[0].end {
        assert NonEmpty(ranges)[1..] == NonEmpty(ranges[1..]);
      }
    }
  }

  function Sizes(ranges: seq<Range>): seq<int> {
    seq(|ranges|, i requires 0 <= i < |ranges| => ranges[i].Size())
  }

  /** The tile sizes of a cover add up to the whole work. */
  lemma {:induction false} SizesAddUp(ranges: seq<Range>, lo: int, hi: int)
    requires Covers(ranges, lo, hi)
    ensures Sum(Sizes(ranges)) == hi - lo
    decreases |ranges|
  {
    if ranges != [] {
      SizesAddUp(ranges[1..], ranges[0].end, hi);
      assert Sizes(ranges)[1..] == Sizes(ranges[1..]);
    }
  }

  // ---------------------------------------------------------------- even split

  function LaidSize(base: int, extra: int, i: int): int {
    base + if i < extra then 1 else 0
  }

  /** The near-even sizes: the remainder goes one by one to the leading tiles. */
  function EvenSizes(total: nat, n: nat): (sizes: seq<int>)
    requires n > 0
    ensures |sizes| == n
  {
    var base, extra := total / n, total % n;
    seq(n, i requires 0 <= i < n => LaidSize(base, extra, i))
  }

  /** Near-even means: they add up to the work, no two differ by more than one, and none is larger than one before it;
      no other sizes are like that. */
  ghost predicate NearEven(sizes: seq<int>, total: int) {
    && Sum(sizes) == total
    && forall i, j :: 0 <= i < j < |sizes| ==> sizes[j] <= sizes[i] <= sizes[j] + 1
  }

  lemma {:induction false} LaidSum(base: int, extra: nat, sizes: seq<int>, k: nat)
    requires k <= |sizes| && forall i :: 0 <= i < |sizes| ==> sizes[i] == LaidSize(base, extra, i)
    ensures Sum(sizes[..k]) == k * base + Min(k, extra)
  {
    if k > 0 {
      LaidSum(base, extra, sizes, k - 1);
      SumPrefix(sizes, k - 1);
      assert k * base == (k - 1) * base + base;
    }
  }

  lemma EvenSizesAreNearEven(total: nat, n: nat)
    requires n > 0
    ensures NearEven(EvenSizes(total, n), total)
  {
    var sizes := EvenSizes(total, n);
    LaidSum(total / n, total % n, sizes, n);
    assert sizes[..n] == sizes;
  }

  lemma NearEvenIsUnique(a: seq<int>, b: seq<int>, total: int)
    requires |a| == |b| && NearEven(a, total) && NearEven(b, total)
    ensures a == b
  {
    if a != b {
      var i, j := DiffersBothWays(a, b);
    }
  }

  method EvenRanges(total: int, n: int) returns (res: Result<seq<Range>>)
    ensures n <= 0 ==> res == Err("n must be positive")
    ensures n > 0 && total < 0 ==> res == Err("total must be non-negative")
    ensures n > 0 && total >= 0 ==>
              res.Ok? && Covers(res.value, 0, total) && Sizes(res.value) == EvenSizes(total, n)
  {
    if n <= 0 {
      return Err("n must be positive");
    }
    if total < 0 {
      return Err("total must be non-negative");
    }
    var base, extra := total / n, total % n;
    assert total == n * base + extra;
    var ranges := LayOut(base, extra, n);
    forall i | 0 <= i < n
      ensures Sizes(ranges)[i] == EvenSizes(total, n)[i]
    {
      assert ranges[i].Size() == LaidSize(base, extra, i);
    }
    return Ok(ranges);
  }

  /** The loop of `even_ranges`, after its `divmod`. */
  method LayOut(base: nat, extra: nat, n: nat) returns (ranges: seq<Range>)
    requires extra < n
    ensures |ranges| == n && Covers(ranges, 0, n * base + extra)
    ensures forall i :: 0 <= i < n ==> ranges[i].Size() == LaidSize(base, extra, i)
  {
    ranges := [];
    var start := 0;
    for i := 0 to n
      invariant |ranges| == i
      invariant start == i * base + Min(i, extra)
      invariant Covers(ranges, 0, start)
      invariant forall k :: 0 <= k < i ==> ranges[k].Size() == LaidSize(base, extra, k)
    {
      var size := LaidSize(base, extra, i);
      assert (i + 1) * base == i * base + base;
      CoversAppend(ranges, 0, start, start + size);
      ranges := ranges + [Range(start, start + size)];
      start := start + size;
    }
  }

  // ---------------------------------------------------------------- largest remainder

  ghost predicate NonNegative(shares: seq<real>) {
    forall i :: 0 <= i < |shares| ==> 0.0 <= shares[i]
  }

  /** `int(s)` of a non-negative share. */
  function Floors(shares: seq<real>): seq<int> {
    seq(|shares|, i requires 0 <= i < |shares| => shares[i].Floor)
  }

  function Frac(shares: seq<real>, i: nat): real
    requires i < |shares|
  {
    shares[i] - shares[i].Floor as real
  }

  /** The sort key of the source, descending: larger remainder first, lower index on ties. */
  predicate Precedes(shares: seq<real>, i: nat, j: nat)
    requires i < |shares| && j < |shares|
  {
    Frac(shares, i) > Frac(shares, j) || (Frac(shares, i) == Frac(shares, j) && i < j)
  }

  ghost predicate Indices(shares: seq<real>, order: seq<nat>) {
    forall a :: 0 <= a < |order| ==> order[a] < |shares|
  }

  ghost predicate Ranked(shares: seq<real>, order: seq<nat>) {
    && Indices(shares, order)
    && (forall a, b :: 0 <= a < b < |order| ==> Precedes(shares, order[a], order[b]))
  }

  function Insert(shares: seq<real>, order: seq<nat>, x: nat): (r: seq<nat>)
    requires x < |shares| && Indices(shares, order)
    ensures |r| == |order| + 1 && Indices(shares, r)
    ensures forall y :: y in r <==> y == x || y in order
  {
    if order == [] then [x]
    else if Precedes(shares, x, order[0]) then [x] + order else [order[0]] + Insert(shares, order[1..], x)
  }

  lemma {:induction false} InsertRanks(shares: seq<real>, order: seq<nat>, x: nat)
    requires x < |shares| && Ranked(shares, order) && x !in order
    ensures Ranked(shares, Insert(shares, order, x))
  {
    if order != [] && !Precedes(shares, x, order[0]) {
      InsertRanks(shares, order[1..], x);
      var rest := Insert(shares, order[1..], x);
      forall k | 0 <= k < |rest|
        ensures Precedes(shares, order[0], rest[k])
      {
        assert rest[k] in rest;
        if rest[k] != x {
          var m :| 1 <= m < |order| && order[m] == rest[k];
        }
      }
    }
  }

  /** `sorted(range(k), key=..., reverse=True)`. */
  function ByRemainder(shares: seq<real>, k: nat): (order: seq<nat>)
    requires k <= |shares|
    ensures Indices(shares, order)
  {
    if k == 0 then [] else Insert(shares, ByRemainder(shares, k - 1), k - 1)
  }

  lemma {:induction false} ByRemainderRanks(shares: seq<real>, k: nat)
    requires k <= |shares|
    ensures Ranked(shares, ByRemainder(shares, k)) && |ByRemainder(shares, k)| == k
    ensures forall y: nat :: y in ByRemainder(shares, k) <==> y < k
  {
    if k > 0 {
      var before := ByRemainder(shares, k - 1);
      ByRemainderRanks(shares, k - 1);
      assert k - 1 !in before;
      InsertRanks(shares, before, k - 1);
      forall y: nat
        ensures y in ByRemainder(shares, k) <==> y < k
      {
        assert y in before <==> y < k - 1;
      }
    }
  }

  /** Python's `s[:k]`, for negative and oversized k too. */
  function PyTake<T>(s: seq<T>, k: int): seq<T> {
    if k >= 0 then s[..Min(k, |s|)] else s[..Max(|s| + k, 0)]
  }

  function BumpAll(counts: seq<int>, idx: seq<nat>): (r: seq<int>)
    requires forall a :: 0 <= a < |idx| ==> idx[a] < |counts|
    ensures |r| == |counts|
  {
    if idx == [] then counts
    else
      var last := idx[|idx| - 1];
      var r := BumpAll(counts, idx[..|idx| - 1]);
      r[last := r[last] + 1]
  }

  lemma {:induction false} BumpAllSum(counts: seq<int>, idx: seq<nat>)
    requires forall a :: 0 <= a < |idx| ==> idx[a] < |counts|
    ensures Sum(BumpAll(counts, idx)) == Sum(counts) + |idx|
  {
    if idx != [] {
      var init := idx[..|idx| - 1];
      BumpAllSum(counts, init);
      var r := BumpAll(counts, init);
      SumUpdate(r, idx[|idx| - 1], r[idx[|idx| - 1]] + 1);
    }
  }

  lemma {:induction false} BumpAllAt(counts: seq<int>, idx: seq<nat>, i: nat)
    requires forall a :: 0 <= a < |idx| ==> idx[a] < |counts|
    requires forall a, b :: 0 <= a < b < |idx| ==> idx[a] != idx[b]
    requires i < |counts|
    ensures BumpAll(counts, idx)[i] == counts[i] + if i in idx then 1 else 0
  {
    if idx != [] {
      var init := idx[..|idx| - 1];
      BumpAllAt(counts, init, i);
      assert idx == init + [idx[|idx| - 1]];
    }
  }

  function Leftover(total: int, shares: seq<real>): int {
    total - Sum(Floors(shares))
  }

  function Chosen(total: int, shares: seq<real>): (idx: seq<nat>)
    ensures Ranked(shares, idx)
  {
    ByRemainderRanks(shares, |shares|);
    PyTake(ByRemainder(shares, |shares|), Leftover(total, shares))
  }

  /** Sizes after flooring and handing the leftover to the largest remainders. */
  function LargestRemainder(total: int, shares: seq<real>): (counts: seq<int>)
    ensures |counts| == |shares|
  {
    BumpAll(Floors(shares), Chosen(total, shares))
  }

  lemma LargestRemainderAt(total: int, shares: seq<real>, i: nat)
    requires i < |shares|
    ensures LargestRemainder(total, shares)[i]
         == shares[i].Floor + if i in Chosen(total, shares) then 1 else 0
  {
    BumpAllAt(Floors(shares), Chosen(total, shares), i);
  }

  /** What the slice `order[:leftover]` needs: there is a leftover to hand out, and a tile for each unit. */
  predicate LeftoverFits(total: int, shares: seq<real>) {
    0 <= Leftover(total, shares) <= |shares|
  }

  /** The sizes add up to the total exactly when the leftover fits. */
  lemma SumIsTotalIffLeftoverFits(total: int, shares: seq<real>)
    ensures Sum(LargestRemainder(total, shares)) == total <==> LeftoverFits(total, shares)
  {
    BumpAllSum(Floors(shares), Chosen(total, shares));
    ByRemainderRanks(shares, |shares|);
    if LeftoverFits(total, shares) {
      assert |Chosen(total, shares)| == Leftover(total, shares);
    }
  }

  /** The leftover does not always fit. Between 2**54 and 2**55 doubles are four apart: 2**54 + 2 units round down to
      one tile's share of 2**54, the leftover of 2 exceeds the one tile, and a unit is lost. */
  lemma RoundedShareLosesAUnit()
    ensures var total, shares := 0x40_0000_0000_0002, [0x40_0000_0000_0000 as real];
            !LeftoverFits(total, shares) && Sum(LargestRemainder(total, shares)) == total - 1
  {
    OneShare(0x40_0000_0000_0002, 0x40_0000_0000_0000);
  }

  /** ... and 2**54 + 6 units round up to a share of 2**54 + 8, the leftover is negative, and two are created. */
  lemma RoundedShareCreatesUnits()
    ensures var total, shares := 0x40_0000_0000_0006, [0x40_0000_0000_0008 as real];
            !LeftoverFits(total, shares) && Sum(LargestRemainder(total, shares)) == total + 2
  {
    OneShare(0x40_0000_0000_0006, 0x40_0000_0000_0008);
  }

  /** A single tile gets its share, and one unit more if any is left over. */
  lemma OneShare(total: int, share: nat)
    ensures Leftover(total, [share as real]) == total - share
    ensures Sum(LargestRemainder(total, [share as real])) == share + if total > share then 1 else 0
  {
    var shares := [share as real];
    assert Floors(shares) == [share];
    ByRemainderRanks(shares, 1);
    BumpAllSum(Floors(shares), Chosen(total, shares));
  }

  lemma {:induction false} FloorsBracket(shares: seq<real>)
    ensures Sum(Floors(shares)) as real <= SumR(shares)
    ensures shares != [] ==> SumR(shares) < (Sum(Floors(shares)) + |shares|) as real
  {
    if shares != [] {
      FloorsBracket(shares[1..]);
      assert Floors(shares)[1..] == Floors(shares[1..]);
    }
  }

  /** Exact shares always leave a leftover below the number of tiles. */
  lemma ExactLeftoverFits(total: int, shares: seq<real>)
    requires shares != [] && SumR(shares) == total as real
    ensures 0 <= Leftover(total, shares) < |shares|
  {
    FloorsBracket(shares);
  }

  ghost predicate Within(delta: real, computed: seq<real>, exact: seq<real>) {
    && |computed| == |exact|
    && forall i :: 0 <= i < |computed| ==> -delta <= computed[i] - exact[i] <= delta
  }

  /** n roundings of at most delta each. */
  function Drift(n: nat, delta: real): real {
    n as real * delta
  }

  lemma {:induction false} DriftAddsUp(delta: real, computed: seq<real>, exact: seq<real>)
    requires Within(delta, computed, exact)
    ensures -Drift(|computed|, delta) <= SumR(computed) - SumR(exact) <= Drift(|computed|, delta)
  {
    if computed != [] {
      DriftAddsUp(delta, computed[1..], exact[1..]);
      assert Drift(|computed|, delta) == Drift(|computed[1..]|, delta) + delta;
    }
  }

  /** Rounding that stays below one unit over all tiles never breaks the split. */
  lemma RoundedSharesFit(total: int, delta: real, computed: seq<real>, exact: seq<real>)
    requires computed != [] && Within(delta, computed, exact)
    requires SumR(exact) == total as real
    requires Drift(|computed|, delta) < 1.0
    ensures LeftoverFits(total, computed)
    ensures Sum(LargestRemainder(total, computed)) == total
  {
    DriftAddsUp(delta, computed, exact);
    FloorsBracket(computed);
    SumIsTotalIffLeftoverFits(total, computed);
  }

  // ---------------------------------------------------------------- quota and optimality

  lemma ChosenBeforeUnchosen(total: int, shares: seq<real>, i: nat, j: nat)
    requires i in Chosen(total, shares) && j < |shares| && j !in Chosen(total, shares)
    ensures i < |shares| && Precedes(shares, i, j)
  {
    var order := ByRemainder(shares, |shares|);
    var taken := Chosen(total, shares);
    ByRemainderRanks(shares, |shares|);
    assert j in order;
    var a :| 0 <= a < |taken| && taken[a] == i;
    var b :| 0 <= b < |order| && order[b] == j;
    assert forall k :: 0 <= k < |taken| ==> order[k] == taken[k];
  }

  /** Equal remainders are served by index: of two shares with the same remainder the later one gets no extra unit
      unless the earlier one does. */
  lemma TiesGoToTheFirst(total: int, shares: seq<real>, i: nat, j: nat)
    requires i < j < |shares| && Frac(shares, i) == Frac(shares, j)
    ensures var sizes := LargestRemainder(total, shares);
            sizes[j] > shares[j].Floor ==> sizes[i] > shares[i].Floor
  {
    LargestRemainderAt(total, shares, i);
    LargestRemainderAt(total, shares, j);
    if j in Chosen(total, shares) && i !in Chosen(total, shares) {
      ChosenBeforeUnchosen(total, shares, j, i);
    }
  }

  lemma {:induction false} ZeroFracs(shares: seq<real>, idx: seq<nat>)
    requires forall a :: 0 <= a < |idx| ==> idx[a] < |shares|
    requires forall a, b :: 0 <= a < b < |idx| ==> idx[a] != idx[b]
    requires forall i :: 0 <= i < |shares| && i !in idx ==> Frac(shares, i) == 0.0
    ensures SumR(shares) - Sum(Floors(shares)) as real <= |idx| as real
    ensures (exists i :: i in idx && Frac(shares, i) == 0.0) ==>
              SumR(shares) - Sum(Floors(shares)) as real < |idx| as real
    decreases |idx|
  {
    if idx == [] {
      AllZeroFracs(shares);
    } else {
      // Replace the last listed share by its floor: the remainder drops by its fraction, below one.
      var k := idx[|idx| - 1];
      var init := idx[..|idx| - 1];
      assert idx == init + [k];
      var flat := shares[k := shares[k].Floor as real];
      assert forall i :: 0 <= i < |flat| ==> Frac(flat, i) == if i == k then 0.0 else Frac(shares, i);
      ZeroFracs(flat, init);
      SumRUpdate(shares, k, flat[k]);
      assert Floors(flat) == Floors(shares);
      if i :| i in idx && Frac(shares, i) == 0.0 {
        assert i in init ==> Frac(flat, i) == 0.0;
      }
    }
  }

  lemma {:induction false} SumRUpdate(s: seq<real>, i: nat, v: real)
    requires i < |s|
    ensures SumR(s[i := v]) == SumR(s) - s[i] + v
  {
    if i > 0 {
      assert s[i := v][1..] == s[1..][i - 1 := v];
      SumRUpdate(s[1..], i - 1, v);
    } else {
      assert s[i := v][1..] == s[1..];
    }
  }

  lemma {:induction false} AllZeroFracs(shares: seq<real>)
    requires forall i :: 0 <= i < |shares| ==> Frac(shares, i) == 0.0
    ensures SumR(shares) == Sum(Floors(shares)) as real
  {
    if shares != [] {
      forall i | 0 <= i < |shares[1..]|
        ensures Frac(shares[1..], i) == 0.0
      {
        assert Frac(shares[1..], i) == Frac(shares, i + 1);
      }
      AllZeroFracs(shares[1..]);
      assert Floors(shares)[1..] == Floors(shares[1..]);
      assert Frac(shares, 0) == 0.0;
    }
  }

  /** Quota: with exact shares every size is the share rounded down or, if it is fractional, up. */
  lemma LargestRemainderQuota(total: int, shares: seq<real>, i: nat)
    requires shares != [] && SumR(shares) == total as real && i < |shares|
    ensures var size := LargestRemainder(total, shares)[i];
            && shares[i] - 1.0 < size as real < shares[i] + 1.0
            && (Frac(shares, i) == 0.0 ==> size as real == shares[i])
  {
    LargestRemainderAt(total, shares, i);
    var taken := Chosen(total, shares);
    ExactLeftoverFits(total, shares);
    if i in taken && Frac(shares, i) == 0.0 {
      forall j | 0 <= j < |shares| && j !in taken
        ensures Frac(shares, j) == 0.0
      {
        ChosenBeforeUnchosen(total, shares, i, j);
      }
      ZeroFracs(shares, taken);
      assert false;
    }
  }

  function SquaredError(counts: seq<int>, shares: seq<real>): real
    requires |counts| == |shares|
  {
    if counts == [] then 0.0
    else (counts[0] as real - shares[0]) * (counts[0] as real - shares[0]) + SquaredError(counts[1..], shares[1..])
  }

  /** An integer step away from `a` costs at least its slope `lambda`, if `lambda` is a subgradient at `a`. */
  lemma StepCost(a: int, c: int, s: real, lambda: real)
    requires -1.0 <= 2.0 * (a as real - s) - lambda <= 1.0
    ensures (c as real - s) * (c as real - s)
         >= (a as real - s) * (a as real - s) + lambda * (c - a) as real
  {
    var d := (c - a) as real;
    var e := 2.0 * (a as real - s) - lambda;
    assert (c as real - s) * (c as real - s) - (a as real - s) * (a as real - s) - lambda * d == d * (d + e) by {
      assert c as real - s == (a as real - s) + d;
    }
    if c != a {
      SameSign(d, d + e);
    }
  }

  lemma SameSign(x: real, y: real)
    requires (x >= 0.0 && y >= 0.0) || (x <= 0.0 && y <= 0.0)
    ensures x * y >= 0.0
  {
  }

  /** `lambda` is a subgradient of the squared error at every size. */
  ghost predicate Slope(a: seq<int>, shares: seq<real>, lambda: real)
    requires |a| == |shares|
  {
    forall i :: 0 <= i < |a| ==> -1.0 <= 2.0 * (a[i] as real - shares[i]) - lambda <= 1.0
  }

  lemma {:induction false} TotalCost(a: seq<int>, c: seq<int>, shares: seq<real>, lambda: real)
    requires |a| == |c| == |shares| && Slope(a, shares, lambda)
    ensures SquaredError(c, shares) >= SquaredError(a, shares) + lambda * (Sum(c) - Sum(a)) as real
  {
    if a != [] {
      TotalCost(a[1..], c[1..], shares[1..], lambda);
      StepCost(a[0], c[0], shares[0], lambda);
      Distribute(lambda, c[0] - a[0], Sum(c[1..]) - Sum(a[1..]));
    }
  }

  lemma Distribute(lambda: real, head: int, tail: int)
    ensures lambda * (head + tail) as real == lambda * head as real + lambda * tail as real
  {
  }

  lemma SameSumCostsNoLess(a: seq<int>, c: seq<int>, shares: seq<real>, lambda: real)
    requires |a| == |c| == |shares| && Slope(a, shares, lambda) && Sum(a) == Sum(c)
    ensures SquaredError(a, shares) <= SquaredError(c, shares)
  {
    TotalCost(a, c, shares, lambda);
    assert lambda * 0.0 == 0.0;
  }

  /** The remainder that separates chosen tiles from the others. */
  lemma Threshold(total: int, shares: seq<real>) returns (theta: real)
    ensures 0.0 <= theta <= 1.0
    ensures forall i :: i in Chosen(total, shares) ==> theta <= Frac(shares, i)
    ensures forall j :: 0 <= j < |shares| && j !in Chosen(total, shares) ==> Frac(shares, j) <= theta
  {
    var taken := Chosen(total, shares);
    if taken == [] {
      theta := 1.0;
    } else {
      var last := taken[|taken| - 1];
      theta := Frac(shares, last);
      forall i | i in taken
        ensures theta <= Frac(shares, i)
      {
        var a :| 0 <= a < |taken| && taken[a] == i;
        assert a < |taken| - 1 ==> Precedes(shares, taken[a], last);
      }
      forall j | 0 <= j < |shares| && j !in taken
        ensures Frac(shares, j) <= theta
      {
        ChosenBeforeUnchosen(total, shares, last, j);
      }
    }
  }

  /** No integer split of the same total is closer to the exact shares in the sum of squares. */
  lemma LargestRemainderOptimal(total: int, shares: seq<real>, other: seq<int>)
    requires shares != [] && SumR(shares) == total as real
    requires |other| == |shares| && Sum(other) == total
    ensures SquaredError(LargestRemainder(total, shares), shares) <= SquaredError(other, shares)
  {
    var mine := LargestRemainder(total, shares);
    var theta := Threshold(total, shares);
    forall i | 0 <= i < |shares|
      ensures -1.0 <= 2.0 * (mine[i] as real - shares[i]) - (1.0 - 2.0 * theta) <= 1.0
    {
      LargestRemainderAt(total, shares, i);
      assert mine[i] as real - shares[i] == (if i in Chosen(total, shares) then 1.0 else 0.0) - Frac(shares, i);
    }
    ExactLeftoverFits(total, shares);
    SumIsTotalIffLeftoverFits(total, shares);
    SameSumCostsNoLess(mine, other, shares, 1.0 - 2.0 * theta);
  }
}
