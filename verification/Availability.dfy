/** Observer availability accounting (src/measurement/availability.py), with exact reals for floats. */
module Availability {
  import opened Base

  const MAX_GAP := 2_678_400.0         // 31 days
  const MAX_TIMESTAMP := 4_102_444_800.0
  const MAX_TRACKED := 34_560_000.0    // 400 days
  const MAX_COUNT := 10_000_000
  const MAX_EXPECTED := 3600.0
  const DEFAULT_EXPECTED := 30.0

  /** A value on its way into the tracker; None is one that is no finite number. */
  type Raw = Option<real>

  datatype Tracker = Tracker(
    first: real, last: real, observed: real, unavailable: real, gaps: int, samples: int, expected: real)
  {
    function Span(): real { observed + unavailable }
  }

  const FRESH := Tracker(0.0, 0.0, 0.0, 0.0, 0, 0, DEFAULT_EXPECTED)

  /** `_nonnegative_finite`. */
  function NonNegative(v: Raw, default: real): real {
    match v case None => default case Some(x) => RMax(0.0, x)
  }

  function ExpectedOf(v: Raw): real {
    RMax(0.001, NonNegative(v, DEFAULT_EXPECTED))
  }

  function Threshold(expected: real): real {
    RMax(3.0 * expected, expected + 30.0)
  }

  datatype Sample = Sample(at: Raw, expected: Raw)

  /** One call of `record`. */
  function Recorded(t: Tracker, s: Sample): Tracker {
    var at, expected := NonNegative(s.at, 0.0), ExpectedOf(s.expected);
    if at <= 0.0 then t
    else if t.last <= 0.0 then t.(first := at, last := at, samples := t.samples + 1, expected := expected)
    else
      var elapsed := at - t.last;
      if elapsed == 0.0 then t.(expected := expected)
      else if elapsed < 0.0 then
        t.(first := RMin(t.first, at), last := at, samples := t.samples + 1, expected := expected)
      else if elapsed > MAX_GAP then t.(last := at, samples := t.samples + 1, expected := expected)
      else if elapsed > Threshold(expected) then
        t.(last := at, samples := t.samples + 1, expected := expected, observed := t.observed + expected,
           unavailable := t.unavailable + (elapsed - expected), gaps := t.gaps + 1)
      else t.(last := at, samples := t.samples + 1, expected := expected, observed := t.observed + elapsed)
  }

  class AvailabilityTracker {
    var first: real
    var last: real
    var observed: real
    var unavailable: real
    var gaps: int
    var samples: int
    var expected: real

    ghost function State(): Tracker
      reads this
    {
      Tracker(first, last, observed, unavailable, gaps, samples, expected)
    }

    constructor (t: Tracker)
      ensures State() == t
    {
      first, last, observed, unavailable := t.first, t.last, t.observed, t.unavailable;
      gaps, samples, expected := t.gaps, t.samples, t.expected;
    }

    method Record(sampledAt: Raw, expectedInterval: Raw)
      modifies this
      ensures State() == Recorded(old(State()), Sample(sampledAt, expectedInterval))
    {
      var timestamp := NonNegative(sampledAt, 0.0);
      if timestamp <= 0.0 {
        return;
      }
      expected := ExpectedOf(expectedInterval);
      if last <= 0.0 {
        first := timestamp;
        last := timestamp;
        samples := samples + 1;
        return;
      }
      var elapsed := timestamp - last;
      if elapsed == 0.0 {
        return;
      }
      samples := samples + 1;
      if elapsed < 0.0 {
        first := RMin(first, timestamp);
        last := timestamp;
        return;
      }
      last := timestamp;
      if elapsed > MAX_GAP {
        return;
      }
      if elapsed > Threshold(expected) {
        var seen := RMin(elapsed, expected);
        observed := observed + seen;
        unavailable := unavailable + (elapsed - seen);
        gaps := gaps + 1;
      } else {
        observed := observed + elapsed;
      }
    }
  }

  function Trace(t: Tracker, trace: seq<Sample>): Tracker {
    if trace == [] then t else Recorded(Trace(t, trace[..|trace| - 1]), trace[|trace| - 1])
  }

  lemma TraceStep(t: Tracker, trace: seq<Sample>, i: nat)
    requires i < |trace|
    ensures Trace(t, trace[..i + 1]) == Recorded(Trace(t, trace[..i]), trace[i])
  {
    assert trace[..i + 1][..i] == trace[..i];
  }

  // ---------------------------------------------------------------- accounting

  /** A sample that `record` does not ignore, with the interval it expects. */
  datatype Point = Point(at: real, expected: real)

  function Points(trace: seq<Sample>): (p: seq<Point>)
    ensures forall i :: 0 <= i < |p| ==> p[i].at > 0.0
  {
    if trace == [] then []
    else
      var s := trace[|trace| - 1];
      var at := NonNegative(s.at, 0.0);
      Points(trace[..|trace| - 1]) + if at > 0.0 then [Point(at, ExpectedOf(s.expected))] else []
  }

  /** The step before point i, as far as it is accounted: positive and at most 31 days. */
  function AccountedStep(p: seq<Point>, i: nat): real
    requires 0 < i < |p|
  {
    Counted(p[i].at - p[i - 1].at)
  }

  function Accounted(p: seq<Point>): real {
    if |p| <= 1 then 0.0 else Accounted(p[..|p| - 1]) + AccountedStep(p, |p| - 1)
  }

  function LongSteps(p: seq<Point>): int {
    if |p| <= 1 then 0
    else
      LongSteps(p[..|p| - 1])
      + if AccountedStep(p, |p| - 1) > Threshold(p[|p| - 1].expected) then 1 else 0
  }

  function Moves(p: seq<Point>): int {
    if |p| <= 1 then |p| else Moves(p[..|p| - 1]) + if p[|p| - 1].at != p[|p| - 2].at then 1 else 0
  }

  function Earliest(p: seq<Point>): real
    requires p != []
  {
    if |p| == 1 then p[0].at else RMin(Earliest(p[..|p| - 1]), p[|p| - 1].at)
  }

  lemma {:induction false} EarliestAtMostLast(p: seq<Point>)
    requires p != []
    ensures Earliest(p) <= p[|p| - 1].at
  {
  }

  /** The tracker's fields are exactly what the points account for. */
  ghost predicate AccountsFor(t: Tracker, p: seq<Point>) {
    && t.Span() == Accounted(p) && t.gaps == LongSteps(p) && t.samples == Moves(p)
    && 0.0 <= t.observed && 0.0 <= t.unavailable
    && if p == [] then t == FRESH else t.last == p[|p| - 1].at > 0.0 && t.first == Earliest(p)
  }

  /** The step to a further point, as far as it is accounted. */
  function Counted(step: real): real {
    if 0.0 < step <= MAX_GAP then step else 0.0
  }

  lemma OnePointMore(p: seq<Point>, x: Point) returns (q: seq<Point>)
    requires p != []
    ensures q == p + [x] && q != [] && q[|q| - 1] == x
    ensures var step := x.at - p[|p| - 1].at;
            && Accounted(q) == Accounted(p) + Counted(step)
            && LongSteps(q) == LongSteps(p) + (if Counted(step) > Threshold(x.expected) then 1 else 0)
            && Moves(q) == Moves(p) + (if step != 0.0 then 1 else 0)
            && Earliest(q) == RMin(Earliest(p), x.at)
  {
    q := p + [x];
    assert q[..|p|] == p;
  }

  lemma FirstPoint(s: Sample)
    requires NonNegative(s.at, 0.0) > 0.0
    ensures AccountsFor(Recorded(FRESH, s), [Point(NonNegative(s.at, 0.0), ExpectedOf(s.expected))])
  {
  }

  lemma RecordAccounts(t: Tracker, p: seq<Point>, s: Sample)
    requires AccountsFor(t, p) && NonNegative(s.at, 0.0) > 0.0
    ensures AccountsFor(Recorded(t, s), p + [Point(NonNegative(s.at, 0.0), ExpectedOf(s.expected))])
  {
    var x := Point(NonNegative(s.at, 0.0), ExpectedOf(s.expected));
    if p == [] {
      FirstPoint(s);
      assert p + [x] == [x];
    } else {
      var q := OnePointMore(p, x);
      EarliestAtMostLast(p);
      RecordedFields(t, x, s);
      assert AccountsFor(Recorded(t, s), q);
    }
  }

  /** What one later sample adds to each field. */
  lemma RecordedFields(t: Tracker, x: Point, s: Sample)
    requires x == Point(NonNegative(s.at, 0.0), ExpectedOf(s.expected)) && x.at > 0.0
    requires t.last > 0.0 && t.first <= t.last && 0.0 <= t.observed && 0.0 <= t.unavailable
    ensures var r, step := Recorded(t, s), x.at - t.last;
            && r.Span() == t.Span() + Counted(step) && 0.0 <= r.observed && 0.0 <= r.unavailable
            && r.gaps == t.gaps + (if Counted(step) > Threshold(x.expected) then 1 else 0)
            && r.samples == t.samples + (if step != 0.0 then 1 else 0)
            && r.last == x.at && r.first == RMin(t.first, x.at)
  {
  }

  /** Over any trace: observed plus unavailable is the sum of the accounted steps, gaps are the long ones,
      and the first sample is the earliest. */
  lemma {:induction false} AccountingIsExact(trace: seq<Sample>)
    ensures AccountsFor(Trace(FRESH, trace), Points(trace))
  {
    if trace != [] {
      var init, s := trace[..|trace| - 1], trace[|trace| - 1];
      AccountingIsExact(init);
      if NonNegative(s.at, 0.0) > 0.0 {
        RecordAccounts(Trace(FRESH, init), Points(init), s);
      } else {
        assert Points(trace) == Points(init);
      }
    }
  }

  // ---------------------------------------------------------------- what was observed and what was not

  /** The samples that count are the finite positive ones; an expected interval is 30 seconds if it is not given, and
      never shorter than a millisecond. */
  lemma SampleCounts(s: Sample)
    ensures Points([s]) ==
              if s.at.Some? && s.at.value > 0.0 then
                [Point(s.at.value, if s.expected.None? then 30.0
                                   else if s.expected.value < 0.001 then 0.001 else s.expected.value)]
              else []
  {
    assert [s][..0] == [];
  }

  /** The step to point i goes forward, by at most 31 days. */
  predicate Forward(p: seq<Point>, i: nat)
    requires 0 < i < |p|
  {
    p[i - 1].at < p[i].at <= p[i - 1].at + 2_678_400.0
  }

  /** It is longer than three expected intervals, and exceeds one by more than 30 seconds. */
  predicate IsGap(p: seq<Point>, i: nat)
    requires 0 < i < |p|
  {
    && Forward(p, i) && p[i].at - p[i - 1].at > 3.0 * p[i].expected
    && p[i].at - p[i - 1].at > p[i].expected + 30.0
  }

  /** A step without a gap was observed throughout; of a gap one expected interval was. */
  function ObservedIn(p: seq<Point>, i: nat): real
    requires 0 < i < |p|
  {
    if IsGap(p, i) then p[i].expected else if Forward(p, i) then p[i].at - p[i - 1].at else 0.0
  }

  /** The rest of a gap was not. */
  function UnavailableIn(p: seq<Point>, i: nat): real
    requires 0 < i < |p|
  {
    if IsGap(p, i) then p[i].at - p[i - 1].at - p[i].expected else 0.0
  }

  function ObservedSteps(p: seq<Point>): seq<real> {
    seq(Max(0, |p| - 1), k requires 0 <= k < Max(0, |p| - 1) => ObservedIn(p, k + 1))
  }

  function UnavailableSteps(p: seq<Point>): seq<real> {
    seq(Max(0, |p| - 1), k requires 0 <= k < Max(0, |p| - 1) => UnavailableIn(p, k + 1))
  }

  function Gaps(p: seq<Point>): set<nat> {
    set i: nat | 0 < i < |p| && IsGap(p, i)
  }

  ghost predicate Amounts(t: Tracker, p: seq<Point>) {
    && t.observed == SumR(ObservedSteps(p)) && t.unavailable == SumR(UnavailableSteps(p)) && t.gaps == |Gaps(p)|
    && t.expected == if p == [] then 30.0 else p[|p| - 1].expected
  }

  lemma StepsAppend(p: seq<Point>, x: Point)
    requires p != []
    ensures var q := p + [x];
            && SumR(ObservedSteps(q)) == SumR(ObservedSteps(p)) + ObservedIn(q, |p|)
            && SumR(UnavailableSteps(q)) == SumR(UnavailableSteps(p)) + UnavailableIn(q, |p|)
            && |Gaps(q)| == |Gaps(p)| + if IsGap(q, |p|) then 1 else 0
  {
    var q := p + [x];
    assert ObservedSteps(q) == ObservedSteps(p) + [ObservedIn(q, |p|)];
    assert UnavailableSteps(q) == UnavailableSteps(p) + [UnavailableIn(q, |p|)];
    SumRAppend(ObservedSteps(p), [ObservedIn(q, |p|)]);
    SumRAppend(UnavailableSteps(p), [UnavailableIn(q, |p|)]);
    assert Gaps(q) == if IsGap(q, |p|) then Gaps(p) + {|p|} else Gaps(p);
  }

  /** What one later sample adds to the two amounts. */
  lemma RecordedAmounts(t: Tracker, s: Sample, p: seq<Point>, q: seq<Point>)
    requires p != [] && t.last == p[|p| - 1].at > 0.0 && NonNegative(s.at, 0.0) > 0.0
    requires q == p + [Point(NonNegative(s.at, 0.0), ExpectedOf(s.expected))]
    ensures var r := Recorded(t, s);
            && r.observed == t.observed + ObservedIn(q, |p|) && r.unavailable == t.unavailable + UnavailableIn(q, |p|)
            && r.gaps == t.gaps + (if IsGap(q, |p|) then 1 else 0) && r.expected == q[|p|].expected
  {
    assert q[|p| - 1] == p[|p| - 1];
  }

  lemma AmountsJoin(t: Tracker, r: Tracker, p: seq<Point>, x: Point)
    requires p != [] && Amounts(t, p) && r.expected == x.expected
    requires r.observed == t.observed + ObservedIn(p + [x], |p|)
    requires r.unavailable == t.unavailable + UnavailableIn(p + [x], |p|)
    requires r.gaps == t.gaps + if IsGap(p + [x], |p|) then 1 else 0
    ensures Amounts(r, p + [x])
  {
    StepsAppend(p, x);
  }

  lemma AmountsStep(t: Tracker, p: seq<Point>, s: Sample)
    requires Amounts(t, p) && NonNegative(s.at, 0.0) > 0.0
    requires if p == [] then t == FRESH else t.last == p[|p| - 1].at > 0.0
    ensures Amounts(Recorded(t, s), p + [Point(NonNegative(s.at, 0.0), ExpectedOf(s.expected))])
  {
    var x := Point(NonNegative(s.at, 0.0), ExpectedOf(s.expected));
    if p == [] {
      FirstAmounts(s, x);
      assert p + [x] == [x];
    } else {
      RecordedAmounts(t, s, p, p + [x]);
      AmountsJoin(t, Recorded(t, s), p, x);
    }
  }

  lemma FirstAmounts(s: Sample, x: Point)
    requires x == Point(NonNegative(s.at, 0.0), ExpectedOf(s.expected)) && x.at > 0.0
    ensures Amounts(Recorded(FRESH, s), [x])
  {
    assert Gaps([x]) == {};
  }

  /** Over any trace the observed time is that of the steps without a gap and one expected interval of each gap, and the
      unavailable time is the rest of the gaps; the gaps are counted, and the last interval is remembered. */
  lemma {:induction false} AmountsAreExact(trace: seq<Sample>)
    ensures Amounts(Trace(FRESH, trace), Points(trace))
  {
    if trace == [] {
      assert Gaps([]) == {};
    } else {
      var init, s := trace[..|trace| - 1], trace[|trace| - 1];
      AmountsAreExact(init);
      AccountingIsExact(init);
      if NonNegative(s.at, 0.0) > 0.0 {
        AmountsStep(Trace(FRESH, init), Points(init), s);
      } else {
        assert Points(trace) == Points(init);
      }
    }
  }

  /** For a rising trace without month-long jumps the span is exactly last minus first. */
  lemma {:induction false} RisingSpan(p: seq<Point>)
    requires p != [] && Rising(p)
    ensures Accounted(p) == p[|p| - 1].at - p[0].at
  {
    if |p| > 1 {
      var init := p[..|p| - 1];
      assert StepOf(p, |p| - 1) == p[|p| - 1].at - p[|p| - 2].at;
      assert forall i :: 0 < i < |init| ==> StepOf(init, i) == StepOf(p, i);
      RisingSpan(init);
    }
  }

  function StepOf(p: seq<Point>, i: nat): real
    requires 0 < i < |p|
  {
    p[i].at - p[i - 1].at
  }

  ghost predicate Rising(p: seq<Point>) {
    forall i :: 0 < i < |p| ==> 0.0 < StepOf(p, i) <= MAX_GAP
  }

  /** ... and the tracker of such a trace says so. */
  lemma RisingTraceSpan(trace: seq<Sample>)
    requires Points(trace) != [] && Rising(Points(trace))
    ensures var t, p := Trace(FRESH, trace), Points(trace);
            t.Span() == t.last - p[0].at && t.last == p[|p| - 1].at
  {
    AccountingIsExact(trace);
    RisingSpan(Points(trace));
  }

  // ---------------------------------------------------------------- building from timestamps

  function Positive(values: seq<Raw>): seq<real> {
    Flatten(Kepts(values))
  }

  function Kepts(values: seq<Raw>): (k: seq<seq<real>>)
    ensures |k| == |values|
  {
    seq(|values|, i requires 0 <= i < |values| => Kept(values[i]))
  }

  function Kept(v: Raw): seq<real> {
    if NonNegative(v, 0.0) > 0.0 then [NonNegative(v, 0.0)] else []
  }

  ghost predicate Sorted(s: seq<real>) {
    forall i, j :: 0 <= i < j < |s| ==> s[i] <= s[j]
  }

  function InsertReal(s: seq<real>, x: real): (r: seq<real>)
    ensures multiset(r) == multiset(s) + multiset{x}
  {
    if s == [] then [x]
    else if x <= s[0] then [x] + s
    else
      assert s == [s[0]] + s[1..];
      [s[0]] + InsertReal(s[1..], x)
  }

  lemma {:induction false} InsertSorts(s: seq<real>, x: real)
    requires Sorted(s)
    ensures Sorted(InsertReal(s, x))
  {
    if s != [] && x > s[0] {
      InsertSorts(s[1..], x);
      var rest := InsertReal(s[1..], x);
      forall k | 0 <= k < |rest|
        ensures s[0] <= rest[k]
      {
        assert rest[k] in multiset(rest);
      }
    }
  }

  function Sort(s: seq<real>): (r: seq<real>)
    ensures Sorted(r) && multiset(r) == multiset(s)
  {
    if s == [] then []
    else
      assert s == [s[0]] + s[1..];
      InsertSorts(Sort(s[1..]), s[0]);
      InsertReal(Sort(s[1..]), s[0])
  }

  function SamplesAt(times: seq<real>, expected: Raw): seq<Sample> {
    seq(|times|, i requires 0 <= i < |times| => Sample(Some(times[i]), expected))
  }

  method TrackerFromTimestamps(values: seq<Raw>, expected: Raw) returns (tracker: AvailabilityTracker)
    ensures fresh(tracker)
    ensures tracker.State() == Trace(FRESH, SamplesAt(Sort(Positive(values)), expected))
  {
    var valid := Sort(Positive(values));
    tracker := new AvailabilityTracker(FRESH);
    ghost var all := SamplesAt(valid, expected);
    for i := 0 to |valid|
      invariant fresh(tracker) && tracker.State() == Trace(FRESH, all[..i])
    {
      TraceStep(FRESH, all, i);
      tracker.Record(Some(valid[i]), expected);
    }
    assert all[..|valid|] == all;
  }

  lemma {:induction false} SortedIsUnique(a: seq<real>, b: seq<real>)
    requires Sorted(a) && Sorted(b) && multiset(a) == multiset(b)
    ensures a == b
  {
    if a == [] {
      assert multiset(b) == multiset{};
    } else {
      SameLeast(a, b);
      SameTails(a, b);
      SortedIsUnique(a[1..], b[1..]);
      assert a == [a[0]] + a[1..] && b == [b[0]] + b[1..];
    }
  }

  lemma SameLeast(a: seq<real>, b: seq<real>)
    requires Sorted(a) && Sorted(b) && multiset(a) == multiset(b) && a != []
    ensures b != [] && a[0] == b[0]
  {
    assert a[0] in multiset(b);
    var i :| 0 <= i < |b| && b[i] == a[0];
    assert b[0] in multiset(a);
    var j :| 0 <= j < |a| && a[j] == b[0];
  }

  /** Building a tracker from timestamps ignores their order. */
  lemma OrderOfTimestampsIsIrrelevant(values: seq<Raw>, order: seq<nat>, expected: Raw)
    requires Permutation(order, |values|)
    ensures Trace(FRESH, SamplesAt(Sort(Positive(Reorder(values, order))), expected))
         == Trace(FRESH, SamplesAt(Sort(Positive(values)), expected))
  {
    assert Kepts(Reorder(values, order)) == Reorder(Kepts(values), order);
    ReorderMultiset(Kepts(values), order);
    FlattenMultiset(Reorder(Kepts(values), order), Kepts(values));
    SortedIsUnique(Sort(Positive(Reorder(values, order))), Sort(Positive(values)));
  }

  // ---------------------------------------------------------------- saving and reloading

  /** The fields of a saved tracker; None stands for a missing or malformed value. */
  datatype Saved = Saved(
    first: Raw, last: Raw, observed: Raw, unavailable: Raw, gaps: Option<int>, samples: Option<int>, expected: Raw)

  function CountOf(v: Option<int>): int {
    match v case None => 0 case Some(n) => Max(0, n)
  }

  /** `from_dict`; None is a value that is not a dict. */
  function FromDict(raw: Option<Saved>): Tracker {
    match raw
    case None => FRESH
    case Some(r) => Tracker(
      RMin(MAX_TIMESTAMP, NonNegative(r.first, 0.0)), RMin(MAX_TIMESTAMP, NonNegative(r.last, 0.0)),
      RMin(MAX_TRACKED, NonNegative(r.observed, 0.0)), RMin(MAX_TRACKED, NonNegative(r.unavailable, 0.0)),
      Min(MAX_COUNT, CountOf(r.gaps)), Min(MAX_COUNT, CountOf(r.samples)),
      RMin(MAX_EXPECTED, RMax(0.001, NonNegative(r.expected, DEFAULT_EXPECTED))))
  }

  function ToDict(t: Tracker): Saved {
    Saved(Some(t.first), Some(t.last), Some(t.observed), Some(t.unavailable), Some(t.gaps), Some(t.samples),
          Some(t.expected))
  }

  /** `x` is the value given, moved into [low, cap], or `default` if none is given. */
  predicate Clamped(v: Raw, default: real, low: real, cap: real, x: real) {
    && low <= x <= cap && (v.None? ==> x == default)
    && (v.Some? && x < v.value ==> x == cap) && (v.Some? && v.value < x ==> x == low)
  }

  /** Loading moves every field of a dict, however malformed, into its caps and changes no other. */
  lemma LoadedIsClamped(r: Saved)
    ensures var t := FromDict(Some(r));
            && Clamped(r.first, 0.0, 0.0, 4_102_444_800.0, t.first)
            && Clamped(r.last, 0.0, 0.0, 4_102_444_800.0, t.last)
            && Clamped(r.observed, 0.0, 0.0, 34_560_000.0, t.observed)
            && Clamped(r.unavailable, 0.0, 0.0, 34_560_000.0, t.unavailable)
            && Clamped(r.expected, 30.0, 0.001, 3600.0, t.expected)
            && 0 <= t.gaps <= 10_000_000 && 0 <= t.samples <= 10_000_000
            && (r.gaps.Some? && 0 <= r.gaps.value <= 10_000_000 ==> t.gaps == r.gaps.value)
            && (r.samples.Some? && 0 <= r.samples.value <= 10_000_000 ==> t.samples == r.samples.value)
  {
  }

  predicate WithinCaps(t: Tracker) {
    && 0.0 <= t.first <= MAX_TIMESTAMP && 0.0 <= t.last <= MAX_TIMESTAMP
    && 0.0 <= t.observed <= MAX_TRACKED && 0.0 <= t.unavailable <= MAX_TRACKED
    && 0 <= t.gaps <= MAX_COUNT && 0 <= t.samples <= MAX_COUNT
  }

  /** A saved tracker reloads unchanged exactly when it is within the caps, its interval included. */
  lemma ReloadIsIdentityIffWithinCaps(t: Tracker)
    ensures FromDict(Some(ToDict(t))) == t <==> WithinCaps(t) && 0.001 <= t.expected <= MAX_EXPECTED
  {
    var r := FromDict(Some(ToDict(t)));
    if r == t {
      assert 0.0 <= r.first <= MAX_TIMESTAMP && 0.0 <= r.last <= MAX_TIMESTAMP;
      assert 0.0 <= r.observed <= MAX_TRACKED && 0.0 <= r.unavailable <= MAX_TRACKED;
    }
  }

  ghost predicate SameButExpected(t: Tracker, u: Tracker) {
    t.(expected := 0.0) == u.(expected := 0.0)
  }

  /** A restart at any point within the caps changes nothing that is recorded later. */
  lemma {:induction false} ReloadChangesNothingLater(t: Tracker, later: seq<Sample>)
    requires WithinCaps(t)
    ensures var u := FromDict(Some(ToDict(t)));
            && SameButExpected(Trace(u, later), Trace(t, later))
            && (Points(later) != [] ==> Trace(u, later) == Trace(t, later))
  {
    if later != [] {
      ReloadChangesNothingLater(t, later[..|later| - 1]);
    }
  }

  // ---------------------------------------------------------------- the daily summary

  datatype Summary = Summary(observedHours: real, unavailableHours: real, observedPct: real, unavailablePct: real)

  function Summarize(t: Tracker): Summary {
    if t.Span() <= 0.0 then Summary(0.0, 0.0, 0.0, 0.0)
    else
      var o, u := t.observed / t.Span(), t.unavailable / t.Span();
      Summary(24.0 * o, 24.0 * u, 100.0 * o, 100.0 * u)
  }

  /** The observed hours are to a day what the observed time is to the span, and the percentages are so to 100; a day
      has 24 hours and 100 percent, whenever anything was accounted at all. */
  lemma DailyHoursSumTo24(t: Tracker)
    requires t.Span() > 0.0
    ensures Summarize(t).observedHours * t.Span() == 24.0 * t.observed
    ensures Summarize(t).observedPct * t.Span() == 100.0 * t.observed
    ensures Summarize(t).observedHours + Summarize(t).unavailableHours == 24.0
    ensures Summarize(t).observedPct + Summarize(t).unavailablePct == 100.0
  {
    assert t.observed / t.Span() + t.unavailable / t.Span() == 1.0;
    assert t.observed / t.Span() * t.Span() == t.observed;
  }
}
