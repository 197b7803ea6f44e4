/**
 * PhotoMosaic.create_mosaic_image: walk the tile grid of the main image column by
 * column, pick the nearest sample for each tile and paste it into its block of the canvas.
 */
module Mosaic {

  import opened Wrappers
  import opened Colors
  import opened Records
  import opened Grid
  import opened Matcher
  import Arith

  /** The inputs of one call, with the colour mode already dispatched. */
  datatype Job = Job(
    main: MainImage,
    samples: seq<ImageInfo>,
    size: nat,
    resolution: nat,
    mode: ColorMode,
    lab: LabBackend,
    background: Rgb)

  /**
   * The inputs for which the finished canvas is described pixel by pixel: a tile size and a
   * resolution of at least 1, an available estimator or an empty catalogue, and every sample
   * image square of the tile resolution.
   */
  predicate ValidJob(job: Job) {
    && job.size >= 1
    && job.resolution >= 1
    && (Available(job.mode, job.lab) || |job.samples| == 0)
    && forall k | 0 <= k < |job.samples| :: IsSquare(job.samples[k].image, job.resolution)
  }

  /** `xnum`: the number of tile columns. */
  function Columns(job: Job): nat
    requires job.size >= 1
  {
    job.main.width / job.size
  }

  /** `ynum`: the number of tile rows. */
  function Rows(job: Job): nat
    requires job.size >= 1
  {
    job.main.height / job.size
  }

  /** The average colour of tile `(i, j)`'s source box. */
  function TileColor(job: Job, i: int, j: int): Color
    requires job.size >= 1
  {
    job.main.averageAt(Origin(job.main.width, job.size, i), Origin(job.main.height, job.size, j))
  }

  /** The catalogue entry chosen for tile `(i, j)`, or `None` for the placeholder. */
  function TileChoice(job: Job, i: int, j: int): (c: Option<nat>)
    requires ValidJob(job)
    ensures c.Some? ==> c.value < |job.samples|
  {
    var keys := Keys(job.samples, TileColor(job, i, j), job.mode, job.lab);
    NearestIsFirstMinimum(keys);
    Nearest(keys)
  }

  /** The image pasted for tile `(i, j)`: the chosen sample, or the blank placeholder. */
  function TileImage(job: Job, i: int, j: int): (img: Image)
    requires ValidJob(job)
    ensures IsSquare(img, job.resolution)
  {
    match TileChoice(job, i, j)
    case Some(k) => job.samples[k].image
    case None => Blank(job.resolution, job.background)
  }

  /** The pixel of the finished canvas at `(px, py)`. */
  function MosaicPixel(job: Job, px: int, py: int): Rgb
    requires ValidJob(job)
    requires 0 <= px < job.resolution * Columns(job) && 0 <= py < job.resolution * Rows(job)
  {
    TileImage(job, px / job.resolution, py / job.resolution)[px % job.resolution][py % job.resolution]
  }

  /**
   * Block `(i, j)` of the canvas holds tile `(i, j)`'s image pixel for pixel, and lies inside
   * the canvas; since a pixel's block is determined by its coordinates, blocks do not overlap.
   */
  lemma PasteRoundTrip(job: Job, i: nat, j: nat, u: nat, v: nat)
    requires ValidJob(job)
    requires i < Columns(job) && j < Rows(job) && u < job.resolution && v < job.resolution
    ensures i * job.resolution + u < job.resolution * Columns(job)
    ensures j * job.resolution + v < job.resolution * Rows(job)
    ensures MosaicPixel(job, i * job.resolution + u, j * job.resolution + v) == TileImage(job, i, j)[u][v]
  {
    var res := job.resolution;
    BlockInside(i, res, Columns(job));
    BlockInside(j, res, Rows(job));
    BlockIndex(i * res + u, res, i);
    BlockIndex(j * res + v, res, j);
  }

  /** With an empty catalogue every tile gets the placeholder, so the canvas is all background. */
  lemma EmptyCatalogueIsBlank(job: Job, px: int, py: int)
    requires ValidJob(job) && |job.samples| == 0
    requires 0 <= px < job.resolution * Columns(job) && 0 <= py < job.resolution * Rows(job)
    ensures MosaicPixel(job, px, py) == job.background
  {
    var res := job.resolution;
    assert 0 <= px % res < res && 0 <= py % res < res;
  }

  /** Pixel `(px, py)` is in paste block `(i, j)`. */
  predicate InBlock(px: int, py: int, i: int, j: int, res: nat) {
    i * res <= px < i * res + res && j * res <= py < j * res + res
  }

  /** A canvas pixel lies in at most one paste block: distinct blocks are disjoint. */
  lemma BlocksDisjoint(px: int, py: int, i: int, j: int, i': int, j': int, res: nat)
    requires res >= 1
    requires InBlock(px, py, i, j, res) && InBlock(px, py, i', j', res)
    ensures i == i' && j == j'
  {
    BlockIndex(px, res, i);
    BlockIndex(px, res, i');
    BlockIndex(py, res, j);
    BlockIndex(py, res, j');
  }

  /** Tile `(ti, tj)` comes before tile `(i, j)` in column-major order. */
  predicate Before(ti: int, tj: int, i: int, j: int) {
    ti < i || (ti == i && tj < j)
  }

  /** `mosaic_image.paste(img, box)`: block `(i, j)` receives `img`, the rest of the canvas is unchanged. */
  method PasteBlock(canvas: array2<Rgb>, img: Image, i: nat, j: nat, res: nat)
    requires IsSquare(img, res)
    requires i * res + res <= canvas.Length0 && j * res + res <= canvas.Length1
    modifies canvas
    ensures forall px, py | 0 <= px < canvas.Length0 && 0 <= py < canvas.Length1 ::
      canvas[px, py] == if InBlock(px, py, i, j, res) then img[px - i * res][py - j * res] else old(canvas[px, py])
  {
    var x0, y0 := i * res, j * res;
    var u := 0;
    while u < res
      invariant 0 <= u <= res
      invariant forall px, py | 0 <= px < canvas.Length0 && 0 <= py < canvas.Length1 ::
        canvas[px, py] == if x0 <= px < x0 + u && y0 <= py < y0 + res then img[px - x0][py - y0] else old(canvas[px, py])
    {
      var v := 0;
      while v < res
        invariant 0 <= v <= res
        invariant forall px, py | 0 <= px < canvas.Length0 && 0 <= py < canvas.Length1 ::
          canvas[px, py] ==
            if (x0 <= px < x0 + u && y0 <= py < y0 + res) || (px == x0 + u && y0 <= py < y0 + v)
            then img[px - x0][py - y0] else old(canvas[px, py])
      {
        canvas[x0 + u, y0 + v] := img[u][v];
        v := v + 1;
      }
      u := u + 1;
    }
  }

  /** The expected value of canvas pixel `(px, py)` once the tiles before `(i, j)` are drawn. */
  function Partial(job: Job, ok: bool, px: int, py: int, i: int, j: int): Rgb
    requires ok ==> ValidJob(job)
    requires job.size >= 1 && job.resolution >= 1
    requires 0 <= px < job.resolution * Columns(job) && 0 <= py < job.resolution * Rows(job)
  {
    if ok && Before(px / job.resolution, py / job.resolution, i, j) then MosaicPixel(job, px, py) else job.background
  }

  /** Pasting tile `(i, j)`'s image moves one pixel from the state before `(i, j)` to the state before `(i, j + 1)`. */
  lemma PasteStep(job: Job, px: int, py: int, i: nat, j: nat, img: Image, was: Rgb, now: Rgb)
    requires ValidJob(job)
    requires 0 <= px < job.resolution * Columns(job) && 0 <= py < job.resolution * Rows(job)
    requires img == TileImage(job, i, j)
    requires was == Partial(job, true, px, py, i, j)
    requires now == if InBlock(px, py, i, j, job.resolution) then img[px - i * job.resolution][py - j * job.resolution] else was
    ensures now == Partial(job, true, px, py, i, j + 1)
  {
    BlockIndex(px, job.resolution, i);
    BlockIndex(py, job.resolution, j);
  }

  /** Tile origins and tile indices advance together: the origin of tile `j` is inside the range iff `j < Rows`. */
  lemma ColumnDone(job: Job, ok: bool, px: int, py: int, i: int)
    requires ok ==> ValidJob(job)
    requires job.size >= 1 && job.resolution >= 1
    requires 0 <= px < job.resolution * Columns(job) && 0 <= py < job.resolution * Rows(job)
    ensures Partial(job, ok, px, py, i, Rows(job)) == Partial(job, ok, px, py, i + 1, 0)
  {
    BlocksCover(py, job.resolution, Rows(job));
  }

  /** Once every column is drawn, every pixel has its final value. */
  lemma AllDone(job: Job, px: int, py: int)
    requires ValidJob(job)
    requires 0 <= px < job.resolution * Columns(job) && 0 <= py < job.resolution * Rows(job)
    ensures Partial(job, true, px, py, Columns(job), 0) == MosaicPixel(job, px, py)
  {
    BlocksCover(px, job.resolution, Columns(job));
  }

  /** Every pixel of `canvas` has the value it has once the tiles before `(i, j)` are drawn. */
  ghost predicate Drawn(canvas: array2<Rgb>, job: Job, ok: bool, i: int, j: int)
    requires ok ==> ValidJob(job)
    requires job.size >= 1 && job.resolution >= 1
    reads canvas
  {
    && canvas.Length0 == job.resolution * Columns(job)
    && canvas.Length1 == job.resolution * Rows(job)
    && forall px, py | 0 <= px < canvas.Length0 && 0 <= py < canvas.Length1 ::
         canvas[px, py] == Partial(job, ok, px, py, i, j)
  }

  /**
   * One iteration of the inner loop: the nearest sample to tile `(i, j)`'s colour (origin
   * `(x, y)`), or the placeholder, pasted into block `(i, j)`. `job.mode` is the mode that
   * `colorMode` selects; the search itself tests the string, as the source does per entry.
   */
  method DrawTile(canvas: array2<Rgb>, job: Job, colorMode: string, i: nat, j: nat, x: int, y: int, ghost ok: bool)
    returns (failure: Option<MosaicError>)
    requires job.size >= 1 && job.mode == ParseColorMode(colorMode)
    requires forall k | 0 <= k < |job.samples| :: IsSquare(job.samples[k].image, job.resolution)
    requires ok == (Available(job.mode, job.lab) || |job.samples| == 0)
    requires i < Columns(job) && x == Origin(job.main.width, job.size, i)
    requires j < Rows(job) && y == Origin(job.main.height, job.size, j)
    requires canvas.Length0 == job.resolution * Columns(job) && canvas.Length1 == job.resolution * Rows(job)
    requires job.resolution >= 1 ==> Drawn(canvas, job, ok, i, j)
    modifies canvas
    ensures failure.Some? <==> !ok
    ensures failure.Some? ==> failure.value == ColormathMissing
    ensures failure.None? && job.resolution >= 1 ==> Drawn(canvas, job, ok, i, j + 1)
  {
    var color := job.main.averageAt(x, y);
    var found := FindBest(job.samples, color, colorMode, job.lab);
    if found.Failure? {
      return Some(found.error);
    }
    var best := if found.value.Some? then job.samples[found.value.value].image else Blank(job.resolution, job.background);
    BlockInside(i, job.resolution, Columns(job));
    BlockInside(j, job.resolution, Rows(job));
    label BeforePaste:
    PasteBlock(canvas, best, i, j, job.resolution);
    if job.resolution >= 1 {
      assert best == TileImage(job, i, j);
      forall px, py | 0 <= px < canvas.Length0 && 0 <= py < canvas.Length1
        ensures canvas[px, py] == Partial(job, ok, px, py, i, j + 1)
      {
        PasteStep(job, px, py, i, j, best, old@BeforePaste(canvas[px, py]), canvas[px, py]);
      }
    }
    failure := None;
  }

  /** The inner `y` loop for column `i` (origin `x`). */
  method DrawColumn(canvas: array2<Rgb>, job: Job, colorMode: string, i: nat, x: int, ghost ok: bool)
    returns (failure: Option<MosaicError>, ghost column: seq<(int, int)>)
    requires job.size >= 1 && job.mode == ParseColorMode(colorMode)
    requires forall k | 0 <= k < |job.samples| :: IsSquare(job.samples[k].image, job.resolution)
    requires ok == (Available(job.mode, job.lab) || |job.samples| == 0)
    requires i < Columns(job) && x == Origin(job.main.width, job.size, i)
    requires canvas.Length0 == job.resolution * Columns(job) && canvas.Length1 == job.resolution * Rows(job)
    requires job.resolution >= 1 ==> Drawn(canvas, job, ok, i, 0)
    modifies canvas
    ensures failure.Some? <==> !ok && Rows(job) > 0
    ensures failure.Some? ==> failure.value == ColormathMissing
    ensures failure.None? ==> column == Column(i, Rows(job))
    ensures failure.None? && job.resolution >= 1 ==> Drawn(canvas, job, ok, i + 1, 0)
  {
    var height, size := job.main.height, job.size;
    column := [];
    var j, y := 0, Start(height, size);
    while y < Stop(height, size)
      invariant 0 <= j <= Rows(job) && y == Origin(height, size, j)
      invariant !ok ==> j == 0
      invariant column == Column(i, j)
      invariant job.resolution >= 1 ==> Drawn(canvas, job, ok, i, j)
    {
      OriginInRange(height, size, j);
      failure := DrawTile(canvas, job, colorMode, i, j, x, y, ok);
      if failure.Some? {
        return failure, column;
      }
      assert Column(i, j) + [(i, j)] == Column(i, j + 1);
      column := column + [(i, j)];
      j, y := j + 1, y + size;
    }
    OriginInRange(height, size, j);
    if job.resolution >= 1 {
      forall px, py | 0 <= px < canvas.Length0 && 0 <= py < canvas.Length1
        ensures canvas[px, py] == Partial(job, ok, px, py, i + 1, 0)
      {
        ColumnDone(job, ok, px, py, i);
      }
    }
    failure := None;
  }

  /** A canvas just filled with the background is drawn up to tile `(0, 0)`. */
  lemma DrawnInitially(canvas: array2<Rgb>, job: Job, ok: bool)
    requires ok ==> ValidJob(job)
    requires job.size >= 1 && job.resolution >= 1
    requires canvas.Length0 == job.resolution * Columns(job) && canvas.Length1 == job.resolution * Rows(job)
    requires forall px, py | 0 <= px < canvas.Length0 && 0 <= py < canvas.Length1 :: canvas[px, py] == job.background
    ensures Drawn(canvas, job, ok, 0, 0)
  {
    forall px, py | 0 <= px < canvas.Length0 && 0 <= py < canvas.Length1
      ensures canvas[px, py] == Partial(job, ok, px, py, 0, 0)
    {
      Arith.DivNonneg(px, job.resolution);
      Arith.DivNonneg(py, job.resolution);
      assert !Before(px / job.resolution, py / job.resolution, 0, 0);
    }
  }

  /** A canvas drawn up to the column past the last one holds the whole mosaic. */
  lemma DrawnCompletely(canvas: array2<Rgb>, job: Job)
    requires ValidJob(job)
    requires Drawn(canvas, job, true, Columns(job), 0)
    ensures forall px, py | 0 <= px < canvas.Length0 && 0 <= py < canvas.Length1 :: canvas[px, py] == MosaicPixel(job, px, py)
  {
    forall px, py | 0 <= px < canvas.Length0 && 0 <= py < canvas.Length1
      ensures canvas[px, py] == MosaicPixel(job, px, py)
    {
      AllDone(job, px, py);
    }
  }

  /** The outer `x` loop: draw every column of the grid into `canvas`, left to right. */
  method DrawGrid(canvas: array2<Rgb>, job: Job, colorMode: string, ghost ok: bool)
    returns (failure: Option<MosaicError>, ghost visits: seq<(int, int)>)
    requires job.size >= 1 && job.mode == ParseColorMode(colorMode)
    requires forall k | 0 <= k < |job.samples| :: IsSquare(job.samples[k].image, job.resolution)
    requires ok == (Available(job.mode, job.lab) || |job.samples| == 0)
    requires canvas.Length0 == job.resolution * Columns(job) && canvas.Length1 == job.resolution * Rows(job)
    requires job.resolution >= 1 ==> Drawn(canvas, job, ok, 0, 0)
    modifies canvas
    ensures failure.Some? <==> !ok && Columns(job) > 0 && Rows(job) > 0
    ensures failure.Some? ==> failure.value == ColormathMissing
    ensures failure.None? ==> visits == ColumnMajor(Columns(job), Rows(job))
    ensures failure.None? && job.resolution >= 1 ==> Drawn(canvas, job, ok, Columns(job), 0)
  {
    var width, size := job.main.width, job.size;
    visits := [];
    var i, x := 0, Start(width, size);
    while x < Stop(width, size)
      invariant 0 <= i <= Columns(job) && x == Origin(width, size, i)
      invariant !ok ==> i == 0 || Rows(job) == 0
      invariant visits == ColumnMajor(i, Rows(job))
      invariant job.resolution >= 1 ==> Drawn(canvas, job, ok, i, 0)
    {
      OriginInRange(width, size, i);
      ghost var column;
      failure, column := DrawColumn(canvas, job, colorMode, i, x, ok);
      if failure.Some? {
        return failure, visits;
      }
      visits := visits + column;
      i, x := i + 1, x + size;
    }
    OriginInRange(width, size, i);
    failure := None;
  }

  /**
   * create_mosaic_image on a main image reduced to its size and tile colours. The canvas
   * starts filled with `background`; `visits` records the tiles in the order they are drawn.
   */
  method CreateMosaicImage(main: MainImage, samples: seq<ImageInfo>, size: nat, resolution: nat,
                           colorMode: string, lab: LabBackend, background: Rgb)
    returns (result: Result<array2<Rgb>, MosaicError>, ghost visits: seq<(int, int)>)
    requires forall k | 0 <= k < |samples| :: IsSquare(samples[k].image, resolution)
    ensures size == 0 ==> result == Failure(ZeroTileSize)
    ensures size >= 1 ==>
      (result.Failure? <==>
        ParseColorMode(colorMode) == CieLabMode && lab.Missing? && |samples| > 0
        && main.width / size > 0 && main.height / size > 0)
    ensures size >= 1 && result.Failure? ==> result.error == ColormathMissing
    ensures size >= 1 && result.Success? ==>
      && fresh(result.value)
      && result.value.Length0 == resolution * (main.width / size)
      && result.value.Length1 == resolution * (main.height / size)
      && visits == ColumnMajor(main.width / size, main.height / size)
    ensures size >= 1 && result.Success? && resolution >= 1 ==>
      var job := Job(main, samples, size, resolution, ParseColorMode(colorMode), lab, background);
      ValidJob(job) ==>
        forall px, py | 0 <= px < result.value.Length0 && 0 <= py < result.value.Length1 ::
          result.value[px, py] == MosaicPixel(job, px, py)
  {
    visits := [];
    if size == 0 {
      return Failure(ZeroTileSize), visits;
    }
    var xnum, ynum := main.width / size, main.height / size;
    var job := Job(main, samples, size, resolution, ParseColorMode(colorMode), lab, background);
    ghost var ok := Available(job.mode, lab) || |samples| == 0;
    var canvas := new Rgb[resolution * xnum, resolution * ynum]((_, _) => background);
    if resolution >= 1 {
      DrawnInitially(canvas, job, ok);
    }
    var failure;
    failure, visits := DrawGrid(canvas, job, colorMode, ok);
    if failure.Some? {
      return Failure(failure.value), visits;
    }
    if resolution >= 1 && ok {
      DrawnCompletely(canvas, job);
    }
    result := Success(canvas);
  }
}
