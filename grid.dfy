/**
 * Grid geometry of create_mosaic_image: the centring offsets, the tile origins the two
 * `range` loops produce, the column-major visiting order, and the paste blocks.
 */
module Grid {

  import Arith

  /** `ceil(dim % size / 2)`: the first tile origin, equal to `(dim % size + 1) // 2`. */
  function Start(dim: nat, size: nat): nat
    requires size >= 1
  {
    (dim % size + 1) / 2
  }

  /** `floor(dim - dim % size / 2)`: the exclusive stop of the origin range. */
  function Stop(dim: nat, size: nat): int
    requires size >= 1
  {
    dim - (dim % size + 1) / 2
  }

  /** The origin of tile `k` along one axis. */
  function Origin(dim: nat, size: nat, k: int): int
    requires size >= 1
  {
    Start(dim, size) + k * size
  }

  /** Python's `range(start, stop, step)` for a positive step. */
  function Range(start: int, stop: int, step: nat): seq<int>
    requires step >= 1
    decreases stop - start
  {
    if start < stop then [start] + Range(start + step, stop, step) else []
  }

  /** The `k`-th element of a range is `start + k * step`, below `stop`. */
  lemma {:induction false} RangeAt(start: int, stop: int, step: nat, k: nat)
    requires step >= 1 && k < |Range(start, stop, step)|
    ensures Range(start, stop, step)[k] == start + k * step < stop
    decreases k
  {
    if k > 0 {
      RangeAt(start + step, stop, step, k - 1);
      assert (start + step) + (k - 1) * step == start + k * step;
    }
  }

  /** A range ends at the first `start + k * step` that reaches `stop`. */
  lemma {:induction false} RangeEnd(start: int, stop: int, step: nat)
    requires step >= 1
    ensures start + |Range(start, stop, step)| * step >= stop
    decreases stop - start
  {
    if start < stop {
      var n := |Range(start + step, stop, step)|;
      RangeEnd(start + step, stop, step);
      assert start + step + n * step == start + (n + 1) * step;
    }
  }

  /**
   * The loop condition `x < floor(dim - xoff)` holds at the origin of tile `k` exactly when
   * `k < dim // size`: the range has no off-by-one against the tile count.
   */
  lemma OriginInRange(dim: nat, size: nat, k: nat)
    requires size >= 1
    ensures Origin(dim, size, k) < Stop(dim, size) <==> k < dim / size
  {
    var q, rem := dim / size, dim % size;
    var c := (rem + 1) / 2;
    assert dim == q * size + rem;
    assert Stop(dim, size) - Start(dim, size) == q * size + rem - 2 * c;
    assert rem - 2 * c == 0 || (rem - 2 * c == -1 && size >= 2);
    if k < q {
      Arith.MulMonotone(k + 1, q, size);
      assert (k + 1) * size == k * size + size;
    } else {
      Arith.MulMonotone(q, k, size);
    }
  }

  /** Every tile box the loops visit lies inside the image along that axis. */
  lemma TileInside(dim: nat, size: nat, k: nat)
    requires size >= 1 && k < dim / size
    ensures 0 <= Origin(dim, size, k)
    ensures Origin(dim, size, k) + size <= dim
  {
    var q, rem := dim / size, dim % size;
    assert dim == q * size + rem;
    Arith.MulMonotone(k + 1, q, size);
    assert (k + 1) * size == k * size + size;
    Arith.MulNonneg(k, size);
  }

  /**
   * The range of origins has exactly `dim // size` elements, the `k`-th being `Origin(k)`;
   * the pixels it leaves unused are `dim % size`, split into a leading margin and a
   * trailing margin, the leading one larger by at most one.
   */
  lemma {:induction false} GridRange(dim: nat, size: nat)
    requires size >= 1
    ensures |Range(Start(dim, size), Stop(dim, size), size)| == dim / size
    ensures forall k | 0 <= k < dim / size :: Range(Start(dim, size), Stop(dim, size), size)[k] == Origin(dim, size, k)
    ensures var lead, trail := Start(dim, size), dim - Origin(dim, size, dim / size);
      lead + trail == dim % size && 0 <= lead - trail <= 1
  {
    var start, stop := Start(dim, size), Stop(dim, size);
    var r := Range(start, stop, size);
    RangeEnd(start, stop, size);
    OriginInRange(dim, size, |r|);
    if |r| > dim / size {
      RangeAt(start, stop, size, dim / size);
      OriginInRange(dim, size, dim / size);
    }
    forall k | 0 <= k < dim / size
      ensures r[k] == Origin(dim, size, k)
    {
      RangeAt(start, stop, size, k);
    }
    assert dim == (dim / size) * size + dim % size;
  }

  /** Column `i` of the visiting order: `(i, 0), (i, 1), ..., (i, rows - 1)`. */
  function Column(i: int, rows: nat): seq<(int, int)> {
    seq(rows, j => (i, j))
  }

  /** The order the nested loops visit tiles: `i` (x) outer, `j` (y) inner. */
  function ColumnMajor(cols: nat, rows: nat): seq<(int, int)> {
    if cols == 0 then [] else ColumnMajor(cols - 1, rows) + Column(cols - 1, rows)
  }

  /** The `k`-th tile visited is `(k // rows, k % rows)`: every tile exactly once, column by column. */
  lemma {:induction false} ColumnMajorOrder(cols: nat, rows: nat)
    ensures |ColumnMajor(cols, rows)| == cols * rows
    ensures forall k | 0 <= k < |ColumnMajor(cols, rows)| :: rows >= 1 && ColumnMajor(cols, rows)[k] == (k / rows, k % rows)
  {
    if cols > 0 {
      var prev, col := ColumnMajor(cols - 1, rows), Column(cols - 1, rows);
      ColumnMajorOrder(cols - 1, rows);
      assert |prev| + rows == cols * rows;
      forall k | 0 <= k < |prev| + rows
        ensures rows >= 1 && (prev + col)[k] == (k / rows, k % rows)
      {
        if k >= |prev| {
          Arith.DivUnique(k, rows, cols - 1);
        }
      }
    }
  }

  /**
   * Pixel `p` of the canvas lies in paste block `i` (the span `[i * res, (i + 1) * res)`)
   * exactly when `i == p // res`, at offset `p % res`: blocks are disjoint.
   */
  lemma BlockIndex(p: int, res: nat, i: int)
    requires res >= 1
    ensures i * res <= p < i * res + res <==> p / res == i
    ensures p / res == i ==> p % res == p - i * res
  {
    if i * res <= p < i * res + res {
      Arith.DivUnique(p, res, i);
    }
  }

  /** Every pixel of a canvas `res * n` wide lies in one of the `n` blocks: the blocks cover it. */
  lemma BlocksCover(p: int, res: nat, n: nat)
    requires res >= 1 && 0 <= p < res * n
    ensures 0 <= p / res < n
  {
    if p / res >= n {
      Arith.MulMonotone(n, p / res, res);
    }
  }

  /** Block `i` of `n` lies inside a canvas `res * n` wide. */
  lemma BlockInside(i: nat, res: nat, n: nat)
    requires i < n
    ensures i * res + res <= res * n
  {
    Arith.MulMonotone(i + 1, n, res);
  }

  /** A worked case: width 105, size 10 gives origins 3, 13, ..., 93 with margins 3 and 2. */
  lemma WidthExample()
    ensures Start(105, 10) == 3 && Stop(105, 10) == 102
    ensures |Range(3, 102, 10)| == 10 && Range(3, 102, 10)[9] == 93
  {
    GridRange(105, 10);
  }
}
