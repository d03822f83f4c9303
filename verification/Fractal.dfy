/** The Mandelbrot image: executor `_fractal` and the row placement of `assemble_tiles`. */
module Fractal {
  import opened Base
  import opened Partition
  import opened Jobkit

  datatype FractalOut = FractalOut(rowStart: int, rowEnd: int, rows: seq<seq<int>>, yielded: bool)

  /** The escape counts of one image row, the same whichever tile renders it. */
  function PixelRow(w: World, f: Frame, y: int): (row: seq<int>)
    ensures |row| == f.width
  {
    seq(f.width, x requires 0 <= x < f.width => (w.escape)(f, y, x))
  }

  /** One machine rendering rows [start, end). */
  function RenderOver(w: World, f: Frame, start: int, end: int): FractalOut {
    var n := Max(0, end - start);
    FractalOut(start, end, seq(n, k requires 0 <= k < n => PixelRow(w, f, start + k)), false)
  }

  method RunFractal(w: World, f: Frame, start: int, end: int, shouldYield: YieldFn) returns (out: FractalOut)
    ensures out.rows <= RenderOver(w, f, start, end).rows
    ensures out.rowStart == start && out.rowEnd == end
    ensures !out.yielded ==> out == RenderOver(w, f, start, end)
    ensures out.yielded ==> |out.rows| < end - start && shouldYield(|out.rows|)
  {
    var rows: seq<seq<int>> := [];
    var py := start;
    while py < end
      invariant start <= py <= Max(start, end) && |rows| == py - start
      invariant rows == RenderOver(w, f, start, py).rows
    {
      if shouldYield(|rows|) {
        return FractalOut(start, end, rows, true);
      }
      var row: seq<int> := [];
      for x := 0 to f.width
        invariant row == PixelRow(w, f, py)[..x]
      {
        row := row + [(w.escape)(f, py, x)];
      }
      assert row == PixelRow(w, f, py);
      rows := rows + [row];
      py := py + 1;
    }
    return FractalOut(start, end, rows, false);
  }

  /** `np.clip(count, 0, max_iter)`, then the colour ramp. */
  function Shade<C>(f: Frame, ramp: int -> C, count: int): C {
    ramp(Max(0, Min(count, f.maxIter)))
  }

  function ShadeRow<C>(f: Frame, ramp: int -> C, row: seq<int>): (s: seq<C>)
    ensures |s| == |row|
  {
    seq(|row|, x requires 0 <= x < |row| => Shade(f, ramp, row[x]))
  }

  /** The canvas row after `canvas[y, :len(row)] = painted`; a single pixel is broadcast to an empty row. */
  function Overwrite<C>(old_: seq<C>, painted: seq<C>): (r: seq<C>)
    ensures |r| == |old_|
  {
    if |painted| <= |old_| then painted + old_[|painted|..] else old_
  }

  /** Writing row k of the tile raises: the ramp is empty, or the row does not fit the canvas. */
  predicate RowRaises(f: Frame, tile: FractalOut, k: nat)
    requires k < |tile.rows|
  {
    && 0 <= tile.rowStart + k < f.height && tile.rows[k] != []
    && (f.maxIter < 0 || (|tile.rows[k]| > f.width && |tile.rows[k]| != 1))
  }

  ghost predicate TileRaises(f: Frame, tile: FractalOut) {
    exists k :: 0 <= k < |tile.rows| && RowRaises(f, tile, k)
  }

  /** The last value row `y` got from the first `k` rows of one tile. */
  function PaintRow<C>(f: Frame, ramp: int -> C, canvas: seq<seq<C>>, tile: FractalOut, k: nat): (r: seq<seq<C>>)
    requires k <= |tile.rows|
    ensures |r| == |canvas|
  {
    if k == 0 then canvas
    else
      var before := PaintRow(f, ramp, canvas, tile, k - 1);
      var y := tile.rowStart + k - 1;
      if 0 <= y < |canvas| && tile.rows[k - 1] != []
      then before[y := Overwrite(before[y], ShadeRow(f, ramp, tile.rows[k - 1]))]
      else before
  }

  function PaintAll<C>(f: Frame, ramp: int -> C, canvas: seq<seq<C>>, tiles: seq<FractalOut>): (r: seq<seq<C>>)
    ensures |r| == |canvas|
  {
    if tiles == [] then canvas
    else
      var before := PaintAll(f, ramp, canvas, tiles[..|tiles| - 1]);
      var last := tiles[|tiles| - 1];
      PaintRow(f, ramp, before, last, |last.rows|)
  }

  /** The in-place assembler: every tile's rows land at their absolute position on the canvas. */
  method AssembleTiles<C(0)>(f: Frame, ramp: int -> C, black: C, results: seq<FractalOut>)
    returns (res: Result<array<seq<C>>>)
    ensures res.Err? <==> f.height < 0 || exists t :: t in results && TileRaises(f, t)
    ensures res.Ok? ==> f.height >= 0 && fresh(res.value) && res.value.Length == f.height
                        && res.value[..] == PaintAll(f, ramp, Blank(f, black), results)
  {
    if f.height < 0 {
      return Err("negative dimensions are not allowed");
    }
    var canvas := new seq<C>[f.height](_ => seq(f.width, _ => black));
    assert canvas[..] == Blank(f, black);
    for t := 0 to |results|
      invariant canvas[..] == PaintAll(f, ramp, Blank(f, black), results[..t])
      invariant forall i :: 0 <= i < t ==> !TileRaises(f, results[i])
    {
      var ok := PlaceTile(f, ramp, canvas, results[t]);
      if !ok {
        assert results[t] in results;
        return Err("could not broadcast the row into the canvas");
      }
      assert results[..t + 1][..t] == results[..t];
    }
    assert results[..|results|] == results;
    return Ok(canvas);
  }

  /** The inner loop: one tile's rows, each at its absolute row number, up to the first that does not fit. */
  method PlaceTile<C>(f: Frame, ramp: int -> C, canvas: array<seq<C>>, tile: FractalOut) returns (ok: bool)
    requires canvas.Length == f.height
    modifies canvas
    ensures ok <==> !TileRaises(f, tile)
    ensures ok ==> canvas[..] == PaintRow(f, ramp, old(canvas[..]), tile, |tile.rows|)
  {
    for k := 0 to |tile.rows|
      invariant canvas[..] == PaintRow(f, ramp, old(canvas[..]), tile, k)
      invariant forall j :: 0 <= j < k ==> !RowRaises(f, tile, j)
    {
      var y := tile.rowStart + k;
      if RowRaises(f, tile, k) {
        return false;
      }
      if 0 <= y < f.height && tile.rows[k] != [] {
        canvas[y] := Overwrite(canvas[y], ShadeRow(f, ramp, tile.rows[k]));
      }
    }
    return true;
  }

  function Blank<C>(f: Frame, black: C): seq<seq<C>>
    requires f.height >= 0
  {
    seq(f.height, _ => seq(f.width, _ => black))
  }

  // ---------------------------------------------------------------- single pixels

  /** A count outside the ramp takes the colour of its nearer end. */
  lemma ShadeClips<C>(f: Frame, ramp: int -> C, count: int)
    requires 0 <= f.maxIter
    ensures 0 <= count <= f.maxIter ==> Shade(f, ramp, count) == ramp(count)
    ensures count < 0 ==> Shade(f, ramp, count) == ramp(0)
    ensures f.maxIter < count ==> Shade(f, ramp, count) == ramp(f.maxIter)
  {
  }

  /** The tile has a value for pixel (y, x). */
  predicate Reaches(tile: FractalOut, y: int, x: nat) {
    0 <= y - tile.rowStart < |tile.rows| && x < |tile.rows[y - tile.rowStart]|
  }

  /** Tile i is the last in the list that has a value for it. */
  ghost predicate LastToReach(tiles: seq<FractalOut>, i: nat, y: int, x: nat) {
    i < |tiles| && Reaches(tiles[i], y, x) && forall j :: i < j < |tiles| ==> !Reaches(tiles[j], y, x)
  }

  ghost predicate Canvas<C>(f: Frame, canvas: seq<seq<C>>) {
    |canvas| == f.height && forall y :: 0 <= y < |canvas| ==> |canvas[y]| == f.width
  }

  lemma {:induction false} RowsPaint<C>(
    f: Frame, ramp: int -> C, canvas: seq<seq<C>>, tile: FractalOut, k: nat, y: nat, x: nat)
    requires Canvas(f, canvas) && k <= |tile.rows| && !TileRaises(f, tile) && y < f.height && x < f.width
    ensures var r := PaintRow(f, ramp, canvas, tile, k);
            && Canvas(f, r)
            && r[y][x] == if Reaches(tile, y, x) && y - tile.rowStart < k
                          then Shade(f, ramp, tile.rows[y - tile.rowStart][x]) else canvas[y][x]
  {
    if k > 0 {
      RowsPaint(f, ramp, canvas, tile, k - 1, y, x);
      assert !RowRaises(f, tile, k - 1);
    }
  }

  /** Whatever the tiles are, as long as none of their rows fails to fit: each pixel has the colour of the last tile in
      the list that has a value for it, and what was there before if none has. */
  lemma {:induction false} LastTileWins<C>(
    f: Frame, ramp: int -> C, canvas: seq<seq<C>>, tiles: seq<FractalOut>, y: nat, x: nat)
    requires Canvas(f, canvas) && (forall t :: t in tiles ==> !TileRaises(f, t)) && y < f.height && x < f.width
    ensures var r := PaintAll(f, ramp, canvas, tiles);
            && Canvas(f, r)
            && ((forall t :: t in tiles ==> !Reaches(t, y, x)) ==> r[y][x] == canvas[y][x])
            && forall i: nat :: LastToReach(tiles, i, y, x) ==>
                 r[y][x] == Shade(f, ramp, tiles[i].rows[y - tiles[i].rowStart][x])
  {
    if tiles != [] {
      var n := |tiles| - 1;
      assert tiles == tiles[..n] + [tiles[n]];
      LastTileWins(f, ramp, canvas, tiles[..n], y, x);
      RowsPaint(f, ramp, PaintAll(f, ramp, canvas, tiles[..n]), tiles[n], |tiles[n].rows|, y, x);
      forall i: nat | LastToReach(tiles, i, y, x)
        ensures i == n || LastToReach(tiles[..n], i, y, x)
      {
      }
    }
  }

  /** Pixel (y, x) of the image has the colour of its escape count. */
  lemma PixelOfImage<C>(w: World, f: Frame, ramp: int -> C, y: nat, x: nat)
    requires y < f.height && x < f.width && 0 <= f.maxIter
    ensures var count := (w.escape)(f, y, x);
            WholeImage(w, f, ramp)[y][x]
            == ramp(if count < 0 then 0 else if f.maxIter < count then f.maxIter else count)
  {
    assert RenderOver(w, f, 0, f.height).rows[y] == PixelRow(w, f, y);
  }

  ghost predicate HonestTiles(w: World, f: Frame, ranges: seq<Range>, order: seq<nat>, outs: seq<FractalOut>) {
    && Permutation(order, |ranges|) && |outs| == |order|
    && forall i :: 0 <= i < |outs| ==>
         outs[i] == RenderOver(w, f, ranges[order[i]].start, ranges[order[i]].end)
  }

  predicate Owns(tile: FractalOut, k: nat, y: int) {
    tile.rowStart <= y < tile.rowStart + k
  }

  /** Painting `k` rows of an honest tile: those rows are right, all others untouched. */
  lemma {:induction false} PaintRowAt<C>(
    w: World, f: Frame, ramp: int -> C, canvas: seq<seq<C>>, tile: FractalOut, k: nat, y: nat)
    requires tile == RenderOver(w, f, tile.rowStart, tile.rowEnd) && k <= |tile.rows|
    requires 0 < f.width && y < |canvas| && forall z :: 0 <= z < |canvas| ==> |canvas[z]| == f.width
    ensures var r := PaintRow(f, ramp, canvas, tile, k);
            && |r[y]| == f.width
            && r[y] == if Owns(tile, k, y) then ShadeRow(f, ramp, PixelRow(w, f, y)) else canvas[y]
  {
    if k > 0 {
      PaintRowAt(w, f, ramp, canvas, tile, k - 1, y);
      assert tile.rows[k - 1] == PixelRow(w, f, tile.rowStart + k - 1);
    }
  }

  /** After any list of honest tiles a row is right if some tile owns it, and blank otherwise. */
  lemma {:induction false} PaintAllAt<C>(
    w: World, f: Frame, ramp: int -> C, canvas: seq<seq<C>>, tiles: seq<FractalOut>, y: nat)
    requires forall t :: t in tiles ==> t == RenderOver(w, f, t.rowStart, t.rowEnd)
    requires 0 < f.width && y < |canvas| && forall z :: 0 <= z < |canvas| ==> |canvas[z]| == f.width
    ensures var r := PaintAll(f, ramp, canvas, tiles);
            && |r[y]| == f.width
            && r[y] == if exists t :: t in tiles && Owns(t, |t.rows|, y)
                       then ShadeRow(f, ramp, PixelRow(w, f, y)) else canvas[y]
  {
    if tiles != [] {
      var init, last := tiles[..|tiles| - 1], tiles[|tiles| - 1];
      forall z | 0 <= z < |canvas|
        ensures |PaintAll(f, ramp, canvas, init)[z]| == f.width
      {
        PaintAllAt(w, f, ramp, canvas, init, z);
      }
      PaintAllAt(w, f, ramp, canvas, init, y);
      PaintRowAt(w, f, ramp, PaintAll(f, ramp, canvas, init), last, |last.rows|, y);
      assert tiles == init + [last];
    }
  }

  /** The image one machine would draw. */
  function WholeImage<C>(w: World, f: Frame, ramp: int -> C): seq<seq<C>>
    requires f.height >= 0
  {
    seq(f.height, y requires 0 <= y < f.height => ShadeRow(f, ramp, RenderOver(w, f, 0, f.height).rows[y]))
  }

  lemma HonestTileFits(w: World, f: Frame, tile: FractalOut)
    requires tile == RenderOver(w, f, tile.rowStart, tile.rowEnd) && 0 <= f.maxIter
    ensures !TileRaises(f, tile)
  {
    forall k | 0 <= k < |tile.rows|
      ensures |tile.rows[k]| == f.width
    {
      assert tile.rows[k] == PixelRow(w, f, tile.rowStart + k);
    }
  }

  /** Distributed equals single-machine: any split into bands, any completion order, the same image. */
  lemma MergeFractal<C>(w: World, f: Frame, ramp: int -> C, black: C, ranges: seq<Range>,
                        order: seq<nat>, outs: seq<FractalOut>)
    requires 0 < f.width && 0 <= f.height
    requires Covers(ranges, 0, f.height) && HonestTiles(w, f, ranges, order, outs)
    ensures PaintAll(f, ramp, Blank(f, black), outs) == WholeImage(w, f, ramp)
    ensures 0 <= f.maxIter ==> forall t :: t in outs ==> !TileRaises(f, t)
  {
    var image := PaintAll(f, ramp, Blank(f, black), outs);
    forall t | t in outs && 0 <= f.maxIter
      ensures !TileRaises(f, t)
    {
      HonestTileFits(w, f, t);
    }
    forall y | 0 <= y < f.height
      ensures image[y] == WholeImage(w, f, ramp)[y]
    {
      PaintAllAt(w, f, ramp, Blank(f, black), outs, y);
      var k := ExactCover(ranges, 0, f.height, y);
      PermutationHits(order, |ranges|, k);
      var i :| 0 <= i < |order| && order[i] == k;
      assert outs[i] in outs && Owns(outs[i], |outs[i].rows|, y);
    }
  }
}
