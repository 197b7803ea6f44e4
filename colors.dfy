/**
 * Colours and the colour-distance estimators of PhotoMosaic.create_mosaic_image.
 * A distance is represented by the integer under the square root: the search only
 * compares distances with `<`, and the square root is monotone, so ordering by the
 * radicand is ordering by the distance.
 */
module Colors {

  import Arith

  /** One 8-bit channel value. */
  type Channel = c: int | 0 <= c < 256

  /**
   * A pixel tuple as Pillow's getpixel returns it: red, green, blue and whatever
   * further channels the image mode has (alpha for RGBA, nothing for RGB).
   */
  datatype Color = Color(r: Channel, g: Channel, b: Channel, extra: seq<Channel>)

  /** A pixel of an RGB image (the mosaic canvas). */
  datatype Rgb = Rgb(r: Channel, g: Channel, b: Channel)

  /** The first three channels of a colour; everything after them is ignored. */
  function ToRgb(c: Color): Rgb {
    Rgb(c.r, c.g, c.b)
  }

  /** The three estimators the `color_mode` string selects. */
  datatype ColorMode = CieLabMode | RgbMode | SimplifiedMode

  /**
   * The dispatch on `color_mode`: "CIELAB" first, then "RGB", and any other
   * string (the default "SIMPLIFIED" included) falls through to the simplified formula.
   */
  function ParseColorMode(name: string): (m: ColorMode)
    ensures m == CieLabMode <==> name == "CIELAB"
    ensures m == RgbMode <==> name == "RGB"
    ensures m == SimplifiedMode <==> name != "CIELAB" && name != "RGB"
  {
    if name == "CIELAB" then CieLabMode
    else if name == "RGB" then RgbMode
    else SimplifiedMode
  }

  /**
   * The optional colormath dependency. When it is installed, `delta` stands for an
   * order-preserving natural-number key of the CIE 2000 difference of the sample colour and
   * the tile colour (in that argument order), both first converted from their three RGB
   * channels: one key is below another exactly when its difference is, and a key is below
   * `Matcher.Threshold` exactly when the difference is below the initial `lowest_value`.
   */
  datatype LabBackend = Missing | Installed(delta: (Rgb, Rgb) -> nat)

  /** Whether a distance can be computed at all: CIELAB without colormath cannot. */
  predicate Available(mode: ColorMode, lab: LabBackend) {
    !(mode == CieLabMode && lab.Missing?)
  }

  /** The radicand of the Euclidean (RGB) distance: sample colour `s`, tile colour `t`. */
  function EuclideanSq(s: Color, t: Color): nat {
    var dr, dg, db := s.r - t.r, s.g - t.g, s.b - t.b;
    Arith.SquareNonneg(dr);
    Arith.SquareNonneg(dg);
    Arith.SquareNonneg(db);
    dr * dr + dg * dg + db * db
  }

  /**
   * The radicand of the simplified (compuphase) distance. `>> 8` on the non-negative
   * weighted squares is floor division by 256, which Dafny's `/` is for a positive divisor.
   */
  function CompuphaseSq(s: Color, t: Color): nat {
    var rmean := (s.r + t.r) / 2;
    var dr, dg, db := s.r - t.r, s.g - t.g, s.b - t.b;
    Arith.SquareNonneg(dr);
    Arith.SquareNonneg(dg);
    Arith.SquareNonneg(db);
    Arith.MulNonneg(512 + rmean, dr * dr);
    Arith.MulNonneg(767 - rmean, db * db);
    ((512 + rmean) * (dr * dr)) / 256 + 4 * (dg * dg) + ((767 - rmean) * (db * db)) / 256
  }

  /** The distance key of one (sample, tile) pair under the selected estimator. */
  function Distance(mode: ColorMode, lab: LabBackend, s: Color, t: Color): nat
    requires Available(mode, lab)
  {
    match mode
    case CieLabMode => lab.delta(ToRgb(s), ToRgb(t))
    case RgbMode => EuclideanSq(s, t)
    case SimplifiedMode => CompuphaseSq(s, t)
  }

  /** The Euclidean radicand does not depend on the order of the two colours. */
  lemma EuclideanSymmetric(a: Color, b: Color)
    ensures EuclideanSq(a, b) == EuclideanSq(b, a)
  {
    Arith.SquareOfNegation(a.r - b.r);
    Arith.SquareOfNegation(a.g - b.g);
    Arith.SquareOfNegation(a.b - b.b);
  }

  /** The Euclidean radicand is zero exactly when the first three channels agree. */
  lemma EuclideanZeroIffSameRgb(a: Color, b: Color)
    ensures EuclideanSq(a, b) == 0 <==> ToRgb(a) == ToRgb(b)
  {
    Arith.SquareNonneg(a.r - b.r);
    Arith.SquareNonneg(a.g - b.g);
    Arith.SquareNonneg(a.b - b.b);
    if a.r != b.r { Arith.SquarePositive(a.r - b.r); }
    if a.g != b.g { Arith.SquarePositive(a.g - b.g); }
    if a.b != b.b { Arith.SquarePositive(a.b - b.b); }
  }

  /** The Euclidean radicand never exceeds 3 * 255^2. */
  lemma EuclideanBound(a: Color, b: Color)
    ensures EuclideanSq(a, b) <= 195075
  {
    Arith.SquareAtMost(a.r - b.r, 255);
    Arith.SquareAtMost(a.g - b.g, 255);
    Arith.SquareAtMost(a.b - b.b, 255);
  }

  /** The simplified radicand does not depend on the order of the two colours. */
  lemma CompuphaseSymmetric(a: Color, b: Color)
    ensures CompuphaseSq(a, b) == CompuphaseSq(b, a)
  {
    Arith.SquareOfNegation(a.r - b.r);
    Arith.SquareOfNegation(a.g - b.g);
    Arith.SquareOfNegation(a.b - b.b);
  }

  /** The simplified radicand is zero exactly when the first three channels agree. */
  lemma CompuphaseZeroIffSameRgb(a: Color, b: Color)
    ensures CompuphaseSq(a, b) == 0 <==> ToRgb(a) == ToRgb(b)
  {
    var rmean := (a.r + b.r) / 2;
    var dr, dg, db := a.r - b.r, a.g - b.g, a.b - b.b;
    Arith.SquareNonneg(dr);
    Arith.SquareNonneg(dg);
    Arith.SquareNonneg(db);
    Arith.MulNonneg(512 + rmean, dr * dr);
    Arith.MulNonneg(767 - rmean, db * db);
    if dr != 0 {
      Arith.SquarePositive(dr);
      Arith.MulMonotone(512, 512 + rmean, dr * dr);
      Arith.MulMonotone(1, dr * dr, 512);
    }
    if dg != 0 { Arith.SquarePositive(dg); }
    if db != 0 {
      Arith.SquarePositive(db);
      Arith.MulMonotone(512, 767 - rmean, db * db);
      Arith.MulMonotone(1, db * db, 512);
    }
  }

  /** The simplified radicand stays below 10^6. */
  lemma CompuphaseBound(a: Color, b: Color)
    ensures CompuphaseSq(a, b) < 1000000
  {
    var rmean := (a.r + b.r) / 2;
    var dr, dg, db := a.r - b.r, a.g - b.g, a.b - b.b;
    Arith.SquareNonneg(dr);
    Arith.SquareNonneg(db);
    Arith.SquareAtMost(dr, 255);
    Arith.SquareAtMost(dg, 255);
    Arith.SquareAtMost(db, 255);
    Arith.MulMonotone(512 + rmean, 767, dr * dr);
    Arith.MulMonotone(dr * dr, 65025, 767);
    Arith.MulMonotone(767 - rmean, 767, db * db);
    Arith.MulMonotone(db * db, 65025, 767);
  }

  /** Every estimator sees only the first three channels of either colour. */
  lemma DistanceIgnoresExtraChannels(mode: ColorMode, lab: LabBackend, s: Color, t: Color, s': Color, t': Color)
    requires Available(mode, lab)
    requires ToRgb(s) == ToRgb(s') && ToRgb(t) == ToRgb(t')
    ensures Distance(mode, lab, s, t) == Distance(mode, lab, s', t')
  {
  }
}
