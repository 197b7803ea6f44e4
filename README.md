# PhotoMosaic core in Dafny

A model of the matching-and-composition core of PhotoMosaic (`create_mosaic_image` and
the crop-box rule of `square_crop` in `PhotoMosaic.py`), with proofs of what the code
promises. The main image is split into a grid of `size` by `size` tiles, centred so that the
leftover pixels form two margins; the grid is walked column by column (x outer, y inner);
for each tile the catalogue of sample images is scanned for the entry whose average colour is
nearest to the tile's, under the estimator the `color_mode` string selects; and the chosen
sample's `resolution` by `resolution` image is pasted into the tile's block of the canvas.

Modules:

- `Arith` (arith.dfy): non-linear arithmetic facts the proofs use.
- `Wrappers` (wrappers.dfy): `Option` and `Result`.
- `Colors` (colors.dfy): pixel tuples, the `color_mode` dispatch, and the squared Euclidean and
  simplified (compuphase) distances with their symmetry, zero-iff-equal and bounds.
- `Records` (records.dfy): images, the `ImageInfo` record (path, image, colour) of
  `PhotoMosaic.py` lines 259-267, the main image as far as the core reads it (`MainImage`: its
  size, line 162, and the average colour of each crop box, line 180), and the two ways the
  function can fail.
- `Grid` (grid.dfy): the centring offsets and the `range` loops as integer arithmetic, the
  column-major visiting order and the paste blocks.
- `Matcher` (matcher.dfy): the first-minimum search and the method that runs it.
- `Crop` (crop.dfy): the crop box of `square_crop`.
- `Mosaic` (mosaic.dfy): the canvas as an `array2`, the paste, and the nested loops of
  `create_mosaic_image`, proved against `MosaicPixel`, the pixel each canvas position ends up with.

Modelling choices:

- A distance is the integer under the square root. The search only compares with `<`, the
  square root is monotone, and the radicands here stay below 10^6, so the order is the same.
  The initial `lowest_value` of 10^9 is therefore compared, squared, as `Threshold`.
- `>> 8` on the non-negative weighted squares is written as `/ 256` (floor division).
- `ceil(dim % size / 2)` is `(dim % size + 1) / 2` and `floor(dim - dim % size / 2)` is
  `dim - (dim % size + 1) / 2`, both exact on integers.
- On these edge cases the model follows what `create_mosaic_image` does:
  - a tile size larger than the image gives an empty canvas, not an error;
  - an empty catalogue pastes the blank placeholder into every block, not an error;
  - CIELAB without colormath fails at the first distance computed. When there is no tile or
    no sample, no distance is computed and the call succeeds.
  - the `range` loops never disagree with `width // size`: `Grid.GridRange` proves the
    range has exactly that many origins.
- The fill colour of `PIL.Image.new("RGB", …, 255)`, used for the canvas and for the
  placeholder, is a parameter (`background`). Which pixel Pillow makes of the integer 255 is
  Pillow's business.

## Model

| member | source | states |
|---|---|---|
| `Colors.ParseColorMode` | PhotoMosaic.py:190-224 | "CIELAB" selects colormath, "RGB" selects the Euclidean formula, and every other string selects the simplified formula |
| `Colors.Available` | PhotoMosaic.py:190-205 | a distance can be computed unless CIELAB is selected without colormath, the `NameError` case; `FindBest` and `CreateMosaicImage` fail exactly when it is false and a distance is needed |
| `Colors.EuclideanSq` | PhotoMosaic.py:210-216 | the radicand of line 216 as a natural number, read from the first three channels of both colours; its properties are `EuclideanSymmetric`, `EuclideanZeroIffSameRgb` and `EuclideanBound` |
| `Colors.CompuphaseSq` | PhotoMosaic.py:222-224 | the radicand of line 224 with `rmean = (r + ar) // 2` and `>> 8` as floor division by 256; its properties are `CompuphaseSymmetric`, `CompuphaseZeroIffSameRgb` and `CompuphaseBound` |
| `Colors.Distance` | PhotoMosaic.py:190-224 | the key of one (sample, tile) pair under the selected estimator, defined only when that estimator is available; `DistanceIgnoresExtraChannels` states it reads three channels |
| `Colors.EuclideanSymmetric` | PhotoMosaic.py:216 | the Euclidean radicand is symmetric in the sample and tile colours |
| `Colors.EuclideanZeroIffSameRgb` | PhotoMosaic.py:210-216 | the Euclidean radicand is zero exactly when red, green and blue agree |
| `Colors.EuclideanBound` | PhotoMosaic.py:216 | the Euclidean radicand is at most 3 * 255^2 |
| `Colors.CompuphaseSymmetric` | PhotoMosaic.py:222-224 | the simplified radicand is symmetric in the two colours (`rmean` and the squares are) |
| `Colors.CompuphaseZeroIffSameRgb` | PhotoMosaic.py:222-224 | the simplified radicand is zero exactly when red, green and blue agree (each nonzero difference weighs at least 2 after the shift) |
| `Colors.CompuphaseBound` | PhotoMosaic.py:222-224 | the simplified radicand stays below 10^6 |
| `Colors.DistanceIgnoresExtraChannels` | PhotoMosaic.py:194-224 | every estimator reads only the first three channels: alpha and further channels do not change the distance |
| `Records.Blank` | PhotoMosaic.py:184 | the placeholder is a resolution by resolution image with every pixel the fill colour |
| `Grid.Start` | PhotoMosaic.py:163-176 | `ceil(dim % size / 2)` computed exactly on integers as `(dim % size + 1) // 2`; `GridRange` states the margins it leaves |
| `Grid.Stop` | PhotoMosaic.py:163-176 | `floor(dim - dim % size / 2)` computed exactly as `dim - (dim % size + 1) // 2`; `OriginInRange` and `GridRange` state where the loop ends |
| `Grid.Range` | PhotoMosaic.py:176-177 | Python's `range(start, stop, step)` for a positive step; `RangeAt` and `RangeEnd` state its elements and its length |
| `Grid.Origin` | PhotoMosaic.py:176-177 | the `x` (or `y`) that `enumerate` pairs with index k, `ceil(off) + k*size`; `GridRange` proves it is the k-th element of the `range` |
| `Grid.RangeAt` | PhotoMosaic.py:176-177 | the k-th value of `range(start, stop, step)` is `start + k*step`, and it is below `stop` |
| `Grid.RangeEnd` | PhotoMosaic.py:176-177 | a range stops at the first `start + k*step` that reaches `stop` |
| `Grid.OriginInRange` | PhotoMosaic.py:162-177 | the loop condition `x < floor(dim - off)` holds at tile k's origin exactly when `k < dim // size` |
| `Grid.GridRange` | PhotoMosaic.py:162-177 | each tile loop yields exactly `dim // size` origins, the k-th at `ceil(off) + k*size`; the unused `dim % size` pixels form a leading and a trailing margin that differ by at most one |
| `Grid.TileInside` | PhotoMosaic.py:176-180 | every crop box `(x, y, x+size, y+size)` lies inside the main image along each axis |
| `Grid.WidthExample` | PhotoMosaic.py:163-176 | width 105 with size 10 starts at 3, stops before 102 and yields 10 origins, the last 93 |
| `Grid.Column` | PhotoMosaic.py:177 | the tiles the inner loop visits for column i, `(i, 0)` to `(i, ynum - 1)`; `DrawColumn` ensures it records exactly these |
| `Grid.ColumnMajor` | PhotoMosaic.py:176-177 | the tiles the nested loops visit, column after column; `ColumnMajorOrder` states its k-th entry and length, and `DrawGrid`/`CreateMosaicImage` ensure the visits equal it |
| `Grid.ColumnMajorOrder` | PhotoMosaic.py:176-177 | the k-th tile drawn is `(k // ynum, k % ynum)`: i outer, j inner, each of the `xnum*ynum` tiles once |
| `Grid.BlockIndex` | PhotoMosaic.py:232-237 | along one axis, a canvas coordinate is in block i exactly when it divided by the resolution is i, at offset coordinate modulo resolution |
| `Grid.BlocksCover` | PhotoMosaic.py:169-237 | every pixel of a `resolution*n` canvas lies in one of the n blocks |
| `Grid.BlockInside` | PhotoMosaic.py:169-237 | every block of an in-range tile lies inside the canvas |
| `Matcher.ArgMin` | PhotoMosaic.py:187-229 | the index the strict-`<` scan keeps, always a valid index; `ArgMinIsFirstMinimum` states it is the first minimum |
| `Matcher.Nearest` | PhotoMosaic.py:183-229 | the entry the scan leaves in `best_image`, or the placeholder; `NearestIsFirstMinimum` and `NearestSnoc` state its meaning |
| `Matcher.Keys` | PhotoMosaic.py:187-224 | the distance of every catalogue entry's colour to the tile's average colour, in catalogue order; `KeysBelowThreshold` bounds them |
| `Matcher.ArgMinIsFirstMinimum` | PhotoMosaic.py:227-229 | the strict-`<` scan settles on an entry with the smallest key, and no earlier entry has that key |
| `Matcher.FirstMinimumUnique` | PhotoMosaic.py:187-229 | the first minimum is unique, so the choice is deterministic |
| `Matcher.NearestIsFirstMinimum` | PhotoMosaic.py:183-229 | the search keeps the placeholder exactly when no key beats the initial minimum, and otherwise returns the first minimal entry |
| `Matcher.NearestSnoc` | PhotoMosaic.py:227-229 | one more entry replaces the best so far only when its key is strictly below the running minimum |
| `Matcher.KeysBelowThreshold` | PhotoMosaic.py:183-224 | under RGB and simplified every key is below the initial minimum |
| `Matcher.NeverPlaceholder` | PhotoMosaic.py:183-229 | under RGB and simplified the search picks a sample exactly when the catalogue is non-empty |
| `Matcher.DuplicateColorsPickFirst` | PhotoMosaic.py:227-229 | two entries of colour (10,10,10) queried with (10,10,10): the first is chosen |
| `Matcher.FindBest` | PhotoMosaic.py:183-229 | the inner scan fails exactly for CIELAB without colormath on a non-empty catalogue, and otherwise returns the first minimum of the keys, or the placeholder |
| `Crop.CropBox` | PhotoMosaic.py:299-304 | the three-way box choice of `square_crop`; `CropBoxIsCentredSquare` and `CropBoxTranspose` state its properties |
| `Crop.CropBoxIsCentredSquare` | PhotoMosaic.py:296-304 | the crop box is a square of side `min(w, h)` inside the image, with margins `d // 2` and `d - d // 2` on the longer axis (`d = abs(w - h)`), and the whole image when `w == h` |
| `Crop.CropBoxTranspose` | PhotoMosaic.py:299-304 | the rule treats both axes alike: a `h` by `w` image gets the transposed box of a `w` by `h` one |
| `Mosaic.Columns` | PhotoMosaic.py:164 | `xnum = width // size`; `GridRange` proves the x loop has exactly this many origins |
| `Mosaic.Rows` | PhotoMosaic.py:164 | `ynum = height // size`; `GridRange` proves the y loop has exactly this many origins |
| `Mosaic.TileColor` | PhotoMosaic.py:176-180 | the average colour of tile (i, j)'s crop box `(x, y, x + size, y + size)` at its origins; `TileInside` proves the box lies inside the main image |
| `Mosaic.TileChoice` | PhotoMosaic.py:179-229 | the entry chosen for tile (i, j) from its average colour, always an index of the catalogue when it is not the placeholder |
| `Mosaic.TileImage` | PhotoMosaic.py:183-229 | the image pasted for tile (i, j), always `resolution` by `resolution` |
| `Mosaic.MosaicPixel` | PhotoMosaic.py:169-237 | the pixel the finished canvas holds at (px, py); `PasteRoundTrip` and `CreateMosaicImage` state that the canvas agrees with it |
| `Mosaic.PasteRoundTrip` | PhotoMosaic.py:232-237 | block (i, j) of the finished canvas is tile (i, j)'s chosen image, pixel for pixel |
| `Mosaic.EmptyCatalogueIsBlank` | PhotoMosaic.py:183-237 | with an empty catalogue the whole canvas is the fill colour |
| `Mosaic.DrawnInitially` | PhotoMosaic.py:169 | the freshly filled canvas is the state before any tile is drawn |
| `Mosaic.BlocksDisjoint` | PhotoMosaic.py:232-237 | a canvas pixel lies in at most one paste block: two blocks containing it have the same (i, j) |
| `Mosaic.PasteBlock` | PhotoMosaic.py:232-237 | `paste` writes the image into block (i, j) and leaves every other pixel unchanged |
| `Mosaic.DrawTile` | PhotoMosaic.py:179-237 | one tile: the nearest sample (or the placeholder) is pasted, moving the canvas from "drawn before (i, j)" to "drawn before (i, j+1)"; fails only for CIELAB without colormath |
| `Mosaic.DrawColumn` | PhotoMosaic.py:177-240 | the inner loop draws the `ynum` tiles of column i in order |
| `Mosaic.DrawGrid` | PhotoMosaic.py:176-242 | the outer loop draws the `xnum` columns in order, visiting the tiles column-major |
| `Mosaic.CreateMosaicImage` | PhotoMosaic.py:138-248 | a zero size fails as Python's division does; the call fails exactly when CIELAB lacks colormath and a tile and a sample exist; otherwise the canvas is `resolution*xnum` by `resolution*ynum`, tiles are visited column-major, and every pixel is `MosaicPixel` |

## Left out

- `average_color` and the `resize` in `square_crop` are Pillow resampling kernels. Each tile's
  average colour is an opaque function of its crop box (`MainImage.averageAt`), and each
  sample's colour and resized crop are given in its `ImageInfo`. The `resize_mode` argument
  only reaches these calls, so it is not a parameter of the model.
- The CIELAB difference: the colormath conversions and `delta_e_cie2000` are a foreign
  floating-point library. When installed, the model takes it as an opaque function giving a
  natural-number key for the difference that preserves its order (one key is below another
  exactly when its difference is) and is below `Matcher.Threshold` exactly when the difference
  is below 10^9; the scan and its theorems need nothing more. The `NameError` path is the `ColormathMissing`
  failure. The progress-bar and message side effects of that path are not modelled.
- `sqrt` itself: the model works on the radicand, which orders the same way.
- `create_mosaic` (file opening, glob discovery, extension filtering, saving), the tqdm
  progress bars, the argparse script and `ImageInfo.__repr__` are I/O or presentation.
- Negative `size` or `resolution`: both are natural numbers in the model. Python's sign rules
  for `//` and `%` with a negative divisor and Pillow's rejection of negative image sizes are
  not modelled.
- The unpacking `r,g,b,_ = sample_img.color` needs exactly four channels and
  `ar,ag,ab,*_ = av_color` at least three. The model's colours always have three channels and
  any number of extra ones, so these `ValueError`s are not modelled; samples are converted to
  RGBA before their colour is taken, so the first one holds for every catalogue entry.
- Pillow's mode conversion when an RGBA sample is pasted into the RGB canvas: sample images
  are taken to be already RGB.
- `Mosaic.CreateMosaicImage` requires every sample image to be `resolution` by `resolution`,
  which `square_crop` guarantees for every catalogue entry; Pillow's error for a mismatched
  paste is not modelled.
- `Matcher.NeverPlaceholder`: stated for the RGB and simplified estimators only, because the
  model puts no bound on the CIELAB difference.
- The default arguments `color_mode="SIMPLIFIED"` and `resize_mode="BICUBIC"`: Dafny methods
  have no defaults, so callers pass the mode string; every string other than "CIELAB" and
  "RGB" selects the simplified formula, the default included.
- Concurrency: the code is single-threaded.
