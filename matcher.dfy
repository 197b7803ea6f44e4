/**
 * The nearest-colour search of create_mosaic_image: a linear scan over the catalogue that
 * keeps a running minimum and replaces it only on a strictly smaller distance.
 */
module Matcher {

  import opened Wrappers
  import opened Colors
  import opened Records

  /** The initial `lowest_value`. */
  const InitialLowest: nat := 1_000_000_000

  /** Keys are squared distances, so the running minimum starts at the square of the initial value. */
  const Threshold: nat := InitialLowest * InitialLowest

  /** The index the left-to-right scan with strict `<` settles on, ignoring the initial bound. */
  function ArgMin(keys: seq<int>): (k: nat)
    requires |keys| > 0
    ensures k < |keys|
  {
    if |keys| == 1 then 0
    else
      var k := ArgMin(keys[..|keys| - 1]);
      if keys[|keys| - 1] < keys[k] then |keys| - 1 else k
  }

  /**
   * The entry the search picks: the first minimum, provided it beats the initial running
   * minimum; `None` stands for the blank placeholder `best_image`.
   */
  function Nearest(keys: seq<int>): Option<nat> {
    if |keys| == 0 then None
    else
      var k := ArgMin(keys);
      if keys[k] < Threshold then Some(k) else None
  }

  /** `k` holds the smallest key and no earlier index holds the same key. */
  ghost predicate IsFirstMinimum(keys: seq<int>, k: int) {
    && 0 <= k < |keys|
    && (forall j | 0 <= j < |keys| :: keys[k] <= keys[j])
    && (forall j | 0 <= j < k :: keys[k] < keys[j])
  }

  /** The scan's index is the first minimum of the keys. */
  lemma {:induction false} ArgMinIsFirstMinimum(keys: seq<int>)
    requires |keys| > 0
    ensures IsFirstMinimum(keys, ArgMin(keys))
  {
    if |keys| > 1 {
      var init := keys[..|keys| - 1];
      ArgMinIsFirstMinimum(init);
      assert forall j | 0 <= j < |init| :: init[j] == keys[j];
    }
  }

  /** There is only one first minimum, so the choice is deterministic. */
  lemma FirstMinimumUnique(keys: seq<int>, k: int, k': int)
    requires IsFirstMinimum(keys, k) && IsFirstMinimum(keys, k')
    ensures k == k'
  {
    assert keys[k] == keys[k'];
  }

  /**
   * The search yields the placeholder exactly when no key beats the initial minimum, and
   * otherwise the first minimal entry.
   */
  lemma NearestIsFirstMinimum(keys: seq<int>)
    ensures Nearest(keys).None? <==> forall j | 0 <= j < |keys| :: keys[j] >= Threshold
    ensures Nearest(keys).Some? ==> IsFirstMinimum(keys, Nearest(keys).value) && keys[Nearest(keys).value] < Threshold
  {
    if |keys| > 0 {
      ArgMinIsFirstMinimum(keys);
    }
  }

  /** One more step of the scan: the new entry wins only if it is strictly below the running minimum. */
  lemma NearestSnoc(keys: seq<int>, n: nat)
    requires n < |keys|
    ensures var lowest := if Nearest(keys[..n]).Some? then keys[Nearest(keys[..n]).value] else Threshold;
      Nearest(keys[..n + 1]) == if keys[n] < lowest then Some(n) else Nearest(keys[..n])
  {
    var pre, cur := keys[..n], keys[..n + 1];
    assert cur[..n] == pre;
    if n > 0 {
      NearestIsFirstMinimum(pre);
      ArgMinIsFirstMinimum(pre);
    }
  }

  /** The distance key of every catalogue entry against the tile colour. */
  function Keys(samples: seq<ImageInfo>, tile: Color, mode: ColorMode, lab: LabBackend): seq<nat>
    requires Available(mode, lab) || |samples| == 0
  {
    seq(|samples|, k requires 0 <= k < |samples| => Distance(mode, lab, samples[k].color, tile))
  }

  /** With the RGB or simplified estimator every key is below the initial minimum. */
  lemma KeysBelowThreshold(samples: seq<ImageInfo>, tile: Color, mode: ColorMode, lab: LabBackend)
    requires mode != CieLabMode
    ensures forall k | 0 <= k < |samples| :: Keys(samples, tile, mode, lab)[k] < Threshold
  {
    forall k | 0 <= k < |samples|
      ensures Keys(samples, tile, mode, lab)[k] < Threshold
    {
      EuclideanBound(samples[k].color, tile);
      CompuphaseBound(samples[k].color, tile);
    }
  }

  /**
   * With the RGB or simplified estimator and a non-empty catalogue, the search always picks a
   * sample, never the placeholder; with an empty catalogue it picks the placeholder.
   */
  lemma NeverPlaceholder(samples: seq<ImageInfo>, tile: Color, mode: ColorMode, lab: LabBackend)
    requires mode != CieLabMode
    ensures Nearest(Keys(samples, tile, mode, lab)).Some? <==> |samples| > 0
  {
    KeysBelowThreshold(samples, tile, mode, lab);
    NearestIsFirstMinimum(Keys(samples, tile, mode, lab));
    if |samples| > 0 {
      assert Keys(samples, tile, mode, lab)[0] < Threshold;
    }
  }

  /** Two catalogue entries of the same average colour: the earlier one is chosen. */
  lemma DuplicateColorsPickFirst(first: ImageInfo, second: ImageInfo)
    requires first.color == second.color == Color(10, 10, 10, [255])
    ensures Nearest(Keys([first, second], Color(10, 10, 10, [255]), RgbMode, Missing)) == Some(0)
  {
    var keys := Keys([first, second], Color(10, 10, 10, [255]), RgbMode, Missing);
    assert keys == [0, 0];
    NearestIsFirstMinimum(keys);
  }

  /**
   * The inner loop of create_mosaic_image for one tile colour: dispatch on `colorMode` per
   * entry, keep the running minimum, and report the CIELAB path without colormath as failure.
   */
  method FindBest(samples: seq<ImageInfo>, tile: Color, colorMode: string, lab: LabBackend)
    returns (r: Result<Option<nat>, MosaicError>)
    ensures r.Failure? <==> ParseColorMode(colorMode) == CieLabMode && lab.Missing? && |samples| > 0
    ensures r.Failure? ==> r.error == ColormathMissing
    ensures r.Success? ==> r.value == Nearest(Keys(samples, tile, ParseColorMode(colorMode), lab))
    ensures r.Success? && r.value.Some? ==> IsFirstMinimum(Keys(samples, tile, ParseColorMode(colorMode), lab), r.value.value)
  {
    var mode := ParseColorMode(colorMode);
    var lowest: int := Threshold;
    var best: Option<nat> := None;
    var n := 0;
    while n < |samples|
      invariant 0 <= n <= |samples|
      invariant n > 0 ==> Available(mode, lab)
      invariant Available(mode, lab) ==> best == Nearest(Keys(samples, tile, mode, lab)[..n])
      invariant best.Some? ==> best.value < n && Available(mode, lab) && lowest == Keys(samples, tile, mode, lab)[best.value]
      invariant best.None? ==> lowest == Threshold
    {
      var s := samples[n].color;
      var result: nat;
      if colorMode == "CIELAB" {
        match lab
        case Missing =>
          return Failure(ColormathMissing);
        case Installed(delta) =>
          result := delta(ToRgb(s), ToRgb(tile));
      } else if colorMode == "RGB" {
        result := EuclideanSq(s, tile);
      } else {
        result := CompuphaseSq(s, tile);
      }
      NearestSnoc(Keys(samples, tile, mode, lab), n);
      if result < lowest {
        lowest := result;
        best := Some(n);
      }
      n := n + 1;
    }
    assert Available(mode, lab) ==> Keys(samples, tile, mode, lab)[..n] == Keys(samples, tile, mode, lab);
    if |samples| == 0 {
      assert best == Nearest(Keys(samples, tile, mode, lab));
    }
    r := Success(best);
    if best.Some? {
      NearestIsFirstMinimum(Keys(samples, tile, mode, lab));
    }
  }
}
