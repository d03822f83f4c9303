/** Synthetic rows without an LLM backend: executor `_ai_synth` and merge `merge_synth`. */
module Synth {
  import opened Base
  import opened Partition
  import opened Jobkit

  datatype SynthOut = SynthOut(rows: seq<Record>, startIndex: int, yielded: bool)

  /** One machine generating rows [start, end). */
  function RowsOver(w: World, s: Spec, start: int, end: int): (rows: seq<Record>)
    ensures |rows| == Max(0, end - start)
  {
    seq(Max(0, end - start), k requires 0 <= k < Max(0, end - start) => (w.record)(s, start + k))
  }

  /** Row k of a dataset is the record of index k, however the dataset is cut. */
  lemma RowIsItsRecord(w: World, s: Spec, start: int, end: int, k: int)
    requires start <= k < end
    ensures RowsOver(w, s, start, end)[k - start] == (w.record)(s, k)
  {
  }

  function SynthOver(w: World, s: Spec, start: int, end: int): SynthOut {
    SynthOut(RowsOver(w, s, start, end), start, false)
  }

  method RunSynth(w: World, s: Spec, start: int, nRows: int, shouldYield: YieldFn) returns (out: SynthOut)
    ensures out.startIndex == start && out.rows <= RowsOver(w, s, start, start + nRows)
    ensures !out.yielded ==> out == SynthOver(w, s, start, start + nRows)
    ensures out.yielded ==> |out.rows| < nRows && shouldYield(|out.rows|)
  {
    var rows: seq<Record> := [];
    var offset := 0;
    while offset < nRows
      invariant 0 <= offset <= Max(0, nRows)
      invariant rows == RowsOver(w, s, start, start + offset)
    {
      if shouldYield(offset) {
        return SynthOut(rows, start, true);
      }
      rows := rows + [(w.record)(s, start + offset)];
      offset := offset + 1;
    }
    return SynthOut(rows, start, false);
  }

  ghost predicate Ascending(tiles: seq<SynthOut>) {
    forall i, j :: 0 <= i < j < |tiles| ==> tiles[i].startIndex <= tiles[j].startIndex
  }

  /** Insert behind equal keys, so that incoming order breaks ties. */
  function InsertTile(tiles: seq<SynthOut>, t: SynthOut): (r: seq<SynthOut>)
    ensures multiset(r) == multiset(tiles) + multiset{t}
  {
    if tiles == [] then [t]
    else
      var n := |tiles| - 1;
      assert tiles == tiles[..n] + [tiles[n]];
      if tiles[n].startIndex <= t.startIndex then tiles + [t] else InsertTile(tiles[..n], t) + [tiles[n]]
  }

  lemma {:induction false} InsertAscends(tiles: seq<SynthOut>, t: SynthOut)
    requires Ascending(tiles)
    ensures Ascending(InsertTile(tiles, t))
  {
    if tiles != [] && tiles[|tiles| - 1].startIndex > t.startIndex {
      var n := |tiles| - 1;
      InsertAscends(tiles[..n], t);
      InsertKeepsBound(tiles[..n], t, tiles[n].startIndex);
    }
  }

  lemma {:induction false} InsertKeepsBound(tiles: seq<SynthOut>, t: SynthOut, bound: int)
    requires t.startIndex <= bound && forall k :: 0 <= k < |tiles| ==> tiles[k].startIndex <= bound
    ensures forall k :: 0 <= k < |InsertTile(tiles, t)| ==> InsertTile(tiles, t)[k].startIndex <= bound
  {
    if tiles != [] && tiles[|tiles| - 1].startIndex > t.startIndex {
      InsertKeepsBound(tiles[..|tiles| - 1], t, bound);
    }
  }

  /** `sorted(enumerate(results), key=(start_index, position))`. */
  function SortTiles(tiles: seq<SynthOut>): (r: seq<SynthOut>)
    ensures Ascending(r) && multiset(r) == multiset(tiles)
  {
    if tiles == [] then []
    else
      var n := |tiles| - 1;
      assert tiles == tiles[..n] + [tiles[n]];
      InsertAscends(SortTiles(tiles[..n]), tiles[n]);
      InsertTile(SortTiles(tiles[..n]), tiles[n])
  }

  function WithStart(tiles: seq<SynthOut>, start: int): seq<SynthOut> {
    if tiles == [] then []
    else
      var n := |tiles| - 1;
      WithStart(tiles[..n], start) + if tiles[n].startIndex == start then [tiles[n]] else []
  }

  lemma WithStartAppend(tiles: seq<SynthOut>, t: SynthOut, start: int)
    ensures WithStart(tiles + [t], start) == WithStart(tiles, start) + if t.startIndex == start then [t] else []
  {
    assert (tiles + [t])[..|tiles|] == tiles;
  }

  lemma StepOver(init: seq<SynthOut>, last: SynthOut, t: SynthOut, start: int)
    requires Ascending(init + [last]) && Ascending(init) && last.startIndex > t.startIndex
    requires WithStart(InsertTile(init, t), start) == WithStart(init + [t], start)
    ensures WithStart(InsertTile(init, t) + [last], start) == WithStart(init + [last] + [t], start)
  {
    WithStartAppend(InsertTile(init, t), last, start);
    WithStartAppend(init, t, start);
    WithStartAppend(init, last, start);
    WithStartAppend(init + [last], t, start);
  }

  lemma {:induction false} InsertKeepsIncoming(tiles: seq<SynthOut>, t: SynthOut, start: int)
    requires Ascending(tiles)
    ensures WithStart(InsertTile(tiles, t), start) == WithStart(tiles + [t], start)
  {
    WithStartAppend(tiles, t, start);
    if tiles == [] {
      assert [t] == tiles + [t];
    } else {
      var n := |tiles| - 1;
      var init, last := tiles[..n], tiles[n];
      if last.startIndex > t.startIndex {
        InsertKeepsIncoming(init, t, start);
        StepOver(init, last, t, start);
        assert tiles == init + [last];
      }
    }
  }

  /** The merge sort is stable: tiles that carry the same start index keep their incoming order. */
  lemma {:induction false} SortIsStable(tiles: seq<SynthOut>, start: int)
    ensures WithStart(SortTiles(tiles), start) == WithStart(tiles, start)
  {
    if tiles != [] {
      var n := |tiles| - 1;
      SortIsStable(tiles[..n], start);
      InsertKeepsIncoming(SortTiles(tiles[..n]), tiles[n], start);
      WithStartAppend(SortTiles(tiles[..n]), tiles[n], start);
    }
  }

  function Concat(tiles: seq<SynthOut>): seq<Record> {
    if tiles == [] then [] else Concat(tiles[..|tiles| - 1]) + tiles[|tiles| - 1].rows
  }

  method MergeSynth(results: seq<SynthOut>) returns (merged: seq<Record>)
    ensures merged == Concat(SortTiles(results))
  {
    var ordered := SortTiles(results);
    merged := [];
    for k := 0 to |ordered|
      invariant merged == Concat(ordered[..k])
    {
      assert ordered[..k + 1][..k] == ordered[..k];
      merged := merged + ordered[k].rows;
    }
    assert ordered[..|ordered|] == ordered;
  }

  ghost predicate HonestTiles(w: World, s: Spec, ranges: seq<Range>, order: seq<nat>, outs: seq<SynthOut>) {
    && Permutation(order, |ranges|) && |outs| == |order|
    && forall i :: 0 <= i < |outs| ==>
         outs[i] == SynthOver(w, s, ranges[order[i]].start, ranges[order[i]].end)
  }

  /** The tiles in range order. */
  function InOrder(w: World, s: Spec, ranges: seq<Range>): (tiles: seq<SynthOut>)
    ensures |tiles| == |ranges|
  {
    seq(|ranges|, i requires 0 <= i < |ranges| => SynthOver(w, s, ranges[i].start, ranges[i].end))
  }

  ghost predicate Increasing(tiles: seq<SynthOut>) {
    forall i, j :: 0 <= i < j < |tiles| ==> tiles[i].startIndex < tiles[j].startIndex
  }

  lemma {:induction false} StartsIncrease(ranges: seq<Range>, lo: int, hi: int)
    requires Covers(ranges, lo, hi) && forall r :: r in ranges ==> r.start < r.end
    ensures forall i, j :: 0 <= i < j < |ranges| ==> ranges[i].start < ranges[j].start
    decreases |ranges|
  {
    if ranges != [] {
      StartsIncrease(ranges[1..], ranges[0].end, hi);
      CoversBounds(ranges[1..], ranges[0].end, hi);
      forall i, j | 0 <= i < j < |ranges|
        ensures ranges[i].start < ranges[j].start
      {
        assert ranges[0] in ranges;
        assert ranges[j] == ranges[1..][j - 1];
        if i > 0 {
          assert ranges[i] == ranges[1..][i - 1];
        }
      }
    }
  }

  /** A sorted rearrangement of tiles with distinct, increasing starts is that very list. */
  lemma {:induction false} SortedIsUnique(a: seq<SynthOut>, b: seq<SynthOut>)
    requires multiset(a) == multiset(b) && Ascending(a) && Increasing(b)
    ensures a == b
    decreases |b|
  {
    if b == [] {
      assert multiset(a) == multiset{};
    } else {
      SameHead(a, b);
      SameTails(a, b);
      SortedIsUnique(a[1..], b[1..]);
      assert a == [a[0]] + a[1..] && b == [b[0]] + b[1..];
    }
  }

  lemma SameHead(a: seq<SynthOut>, b: seq<SynthOut>)
    requires multiset(a) == multiset(b) && Ascending(a) && Increasing(b) && b != []
    ensures a != [] && a[0] == b[0]
  {
    assert b[0] in multiset(a);
    var i :| 0 <= i < |a| && a[i] == b[0];
    assert a[0] in multiset(b);
    var j :| 0 <= j < |b| && b[j] == a[0];
  }

  lemma {:induction false} ConcatInOrder(w: World, s: Spec, ranges: seq<Range>, lo: int, hi: int)
    requires Covers(ranges, lo, hi)
    ensures Concat(InOrder(w, s, ranges)) == RowsOver(w, s, lo, hi)
    decreases |ranges|
  {
    if ranges != [] {
      var tiles := InOrder(w, s, ranges);
      var n := |ranges| - 1;
      var mid := ranges[n].start;
      CoversBounds(ranges, lo, hi);
      CoversInit(ranges, lo, hi);
      ConcatInOrder(w, s, ranges[..n], lo, mid);
      assert tiles[..n] == InOrder(w, s, ranges[..n]);
      RowsSplit(w, s, lo, mid, hi);
    } else {
      assert RowsOver(w, s, lo, hi) == [];
    }
  }

  lemma RowsSplit(w: World, s: Spec, lo: int, mid: int, hi: int)
    requires lo <= mid <= hi
    ensures RowsOver(w, s, lo, hi) == RowsOver(w, s, lo, mid) + RowsOver(w, s, mid, hi)
  {
  }

  lemma {:induction false} CoversInit(ranges: seq<Range>, lo: int, hi: int)
    requires ranges != [] && Covers(ranges, lo, hi)
    ensures Covers(ranges[..|ranges| - 1], lo, ranges[|ranges| - 1].start)
    ensures ranges[|ranges| - 1].end == hi
    decreases |ranges|
  {
    if |ranges| > 1 {
      CoversInit(ranges[1..], ranges[0].end, hi);
      assert ranges[1..][..|ranges| - 2] == ranges[..|ranges| - 1][1..];
    } else {
      assert ranges[1..] == [];
    }
  }

  /** Distributed equals single-machine: any split, any completion order, the same list of rows. */
  lemma MergeSynthIsWhole(w: World, s: Spec, ranges: seq<Range>, total: int, order: seq<nat>, outs: seq<SynthOut>)
    requires Covers(ranges, 0, total) && (forall r :: r in ranges ==> r.start < r.end)
    requires HonestTiles(w, s, ranges, order, outs)
    ensures Concat(SortTiles(outs)) == RowsOver(w, s, 0, total)
  {
    var tiles := InOrder(w, s, ranges);
    assert outs == Reorder(tiles, order);
    ReorderMultiset(tiles, order);
    StartsIncrease(ranges, 0, total);
    SortedIsUnique(SortTiles(outs), tiles);
    ConcatInOrder(w, s, ranges, 0, total);
  }
}
