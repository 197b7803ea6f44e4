/** The crop-box rule of PhotoMosaic.square_crop: the largest centred square. */
module Crop {

  /** A Pillow box `(left, upper, right, lower)`, right and lower exclusive. */
  datatype Box = Box(left: int, upper: int, right: int, lower: int)

  function Min(a: int, b: int): int {
    if a <= b then a else b
  }

  /** The box square_crop hands to `resize` for a `w` by `h` image. */
  function CropBox(w: nat, h: nat): Box {
    if w == h then Box(0, 0, w, h)
    else if w > h then Box((w - h) / 2, 0, (w + h) / 2, h)
    else Box(0, (h - w) / 2, w, (h + w) / 2)
  }

  /** The same box with the two axes exchanged. */
  function Transpose(b: Box): Box {
    Box(b.upper, b.left, b.lower, b.right)
  }

  /**
   * The box is a square of side `min(w, h)` inside the image, centred on the longer axis
   * with margins `d // 2` before and `d - d // 2` after (`d = |w - h|`), and flush on the
   * shorter one; for a square image it is the whole image.
   */
  lemma CropBoxIsCentredSquare(w: nat, h: nat)
    ensures var b := CropBox(w, h);
      && b.right - b.left == Min(w, h) && b.lower - b.upper == Min(w, h)
      && 0 <= b.left <= b.right <= w && 0 <= b.upper <= b.lower <= h
      && (w >= h ==> b.upper == 0 && b.lower == h && b.left == (w - h) / 2 && w - b.right == (w - h) - (w - h) / 2)
      && (h >= w ==> b.left == 0 && b.right == w && b.upper == (h - w) / 2 && h - b.lower == (h - w) - (h - w) / 2)
      && (w == h ==> b == Box(0, 0, w, h))
  {
    if w > h {
      assert (w + h) / 2 == (w - h) / 2 + h;
    } else if h > w {
      assert (h + w) / 2 == (h - w) / 2 + w;
    }
  }

  /** Cropping a `h` by `w` image picks the transposed box of a `w` by `h` one: the rule treats both axes alike. */
  lemma CropBoxTranspose(w: nat, h: nat)
    ensures CropBox(h, w) == Transpose(CropBox(w, h))
  {
  }
}
