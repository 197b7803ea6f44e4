/** The records create_mosaic_image works on. */
module Records {

  import opened Colors

  /** An RGB pixel buffer indexed `pixels[x][y]`: column `x` first, then row `y`. */
  type Image = seq<seq<Rgb>>

  /** `img` is `res` columns of `res` pixels each. */
  predicate IsSquare(img: Image, res: nat) {
    |img| == res && forall x | 0 <= x < res :: |img[x]| == res
  }

  /**
   * `PIL.Image.new("RGB", (res, res), 255)`: a `res` by `res` image every pixel of which
   * is `fill`, the colour Pillow makes of the integer 255.
   */
  function Blank(res: nat, fill: Rgb): (img: Image)
    ensures IsSquare(img, res)
    ensures forall x, y | 0 <= x < res && 0 <= y < res :: img[x][y] == fill
  {
    seq(res, _ => seq(res, _ => fill))
  }

  /**
   * ImageInfo: a catalogue entry as create_mosaic builds it. `image` is the square crop of
   * the sample already resized to the tile resolution (and viewed as RGB, the mode it is
   * converted to when pasted), `color` the sample's average colour.
   */
  datatype ImageInfo = ImageInfo(path: string, image: Image, color: Color)

  /**
   * What create_mosaic_image reads of the main image: its size and, for each tile origin
   * `(x, y)`, the average colour of the crop box `(x, y, x + size, y + size)`.
   */
  datatype MainImage = MainImage(width: nat, height: nat, averageAt: (int, int) -> Color)

  /** Why create_mosaic_image produces no canvas. */
  datatype MosaicError =
    | ZeroTileSize      // `width % size` with size 0 raises ZeroDivisionError
    | ColormathMissing  // CIELAB selected but colormath is not installed: the function returns None
}
