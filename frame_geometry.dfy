/** Integer crop geometry of `process_frame` (written out identically in both
 *  renderers) and of the centre-square fallback `process_frame_original`.
 *  Coordinates follow PIL's crop box: left/top inclusive, right/bottom
 *  exclusive. */
module FrameGeometry {
  import opened Text
  import opened Pixels

  datatype Rect = Rect(left: int, top: int, right: int, bottom: int)

  predicate InImage(r: Rect, w: int, h: int)
  {
    0 <= r.left <= r.right <= w && 0 <= r.top <= r.bottom <= h
  }

  predicate Covers(outer: Rect, inner: Rect)
  {
    outer.left <= inner.left && inner.right <= outer.right && outer.top <= inner.top && inner.bottom <= outer.bottom
  }

  function Width(r: Rect): int { r.right - r.left }

  function Height(r: Rect): int { r.bottom - r.top }

  /** `int(max(pattern_height, pattern_width) * 0.1)`; the extents are the
   *  differences of the first and last foreground indices. */
  function Padding(b: Bounds): int
  {
    Max(b.ymax - b.ymin, b.xmax - b.xmin) / 10
  }

  /** The pattern box after adding the padding and clamping to the image; the
   *  last-index bounds are used as exclusive right and bottom edges. */
  function Padded(b: Bounds, w: int, h: int): Rect
  {
    var p := Padding(b);
    Rect(Max(0, b.xmin - p), Max(0, b.ymin - p), Min(w, b.xmax + p), Min(h, b.ymax + p))
  }

  /** `pattern_size`: the longer side of the padded box. */
  function PatternSize(b: Bounds, w: int, h: int): int
  {
    var q := Padded(b, w, h);
    Max(Width(q), Height(q))
  }

  /** For a pattern whose longer extent is under 10 pixels the padding is 0,
   *  so the padded box ends at the last foreground index itself and that last
   *  row and column lie outside it. */
  lemma SmallPatternPadding(b: Bounds, w: int, h: int)
    requires 0 <= b.ymin <= b.ymax < h && 0 <= b.xmin <= b.xmax < w
    requires Max(b.ymax - b.ymin, b.xmax - b.xmin) < 10
    ensures Padded(b, w, h) == Rect(b.xmin, b.ymin, b.xmax, b.ymax)
  {
  }

  /** A foreground of a single pixel has extent 0 on both axes, so its
   *  padding and its pattern size are 0 and the crop is empty. */
  lemma SinglePixelPatternEmpty(y: int, x: int, w: int, h: int)
    requires 0 <= y < h && 0 <= x < w
    ensures PatternSize(Bounds(y, y, x, x), w, h) == 0
  {
  }

  /** Centring a side of length `size` on the padded interval [lo, hi) of an
   *  axis of length `limit` (the centre, `half` and first `square_*`
   *  assignments, the same on either axis). */
  method CentreSide(lo: int, hi: int, limit: int, size: int) returns (slo: int, shi: int)
    requires 0 <= lo <= hi <= limit && hi - lo <= size
    ensures 0 <= slo <= lo && hi <= shi <= limit && shi - slo <= size
    ensures hi - lo == size ==> slo == lo && shi == hi
    ensures size > 0 && lo < limit ==> slo < shi
  {
    var center := (lo + hi) / 2;
    var half := size / 2;
    slo := Max(0, center - half);
    shi := Min(limit, slo + size);
  }

  /** Re-expanding a clipped axis [slo, shi) of an axis of length `limit` to
   *  `size` (the `if width < new_size` and `if height < new_size` blocks, which
   *  are the same three assignments on either axis); [lo, hi) is the padded
   *  interval it already covers. */
  method ReexpandSide(slo: int, shi: int, ghost lo: int, ghost hi: int, limit: int, size: int)
    returns (nlo: int, nhi: int)
    requires 0 <= slo <= lo <= hi <= shi <= limit && shi - slo < size
    ensures 0 <= nlo <= lo && hi <= nhi <= limit && nhi - nlo <= size
    ensures nhi - nlo == size <==> size <= limit
    ensures lo < limit ==> nlo < nhi
  {
    var diff := size - (shi - slo);
    nlo := Max(0, slo - diff / 2);
    nhi := Min(limit, nlo + size);
    if nhi - nlo < size {
      nlo := Max(0, nhi - size);
    }
  }

  /** What the crop guarantees along one axis: the final interval [lo, hi)
   *  lies in the image, covers the padded interval [padLo, padHi), is no longer
   *  than `size`, keeps the padded interval when that is the longer side,
   *  reaches `size` exactly when `size` fits the axis, and is not empty when
   *  `size` is positive and the padded interval starts inside the axis. */
  predicate AxisDone(padLo: int, padHi: int, limit: int, size: int, lo: int, hi: int)
  {
    && 0 <= lo <= padLo && padHi <= hi <= limit && hi - lo <= size
    && (padHi - padLo == size ==> lo == padLo && hi == padHi)
    && (hi - lo == size <==> size <= limit)
    && (size > 0 && padLo < limit ==> lo < hi)
  }

  /** The guarantees of the crop for mask bounds `b` in a w x h image: the
   *  rectangle lies in the image and covers the padded box; no side exceeds
   *  the pattern size; the longer padded side is kept exactly; and the result
   *  is a square exactly when the pattern size fits both image dimensions,
   *  its side then being the pattern size; and it is empty (0 x 0) exactly
   *  when the pattern size is 0. */
  predicate GoodCrop(b: Bounds, w: int, h: int, r: Rect)
  {
    var q := Padded(b, w, h);
    var size := PatternSize(b, w, h);
    && InImage(r, w, h)
    && Covers(r, q)
    && Width(r) <= size && Height(r) <= size
    && (Width(q) >= Height(q) ==> r.left == q.left && r.right == q.right)
    && (Height(q) >= Width(q) ==> r.top == q.top && r.bottom == q.bottom)
    && (Width(r) == Height(r) <==> size <= w && size <= h)
    && (size <= w && size <= h ==> Width(r) == size)
    && (size > 0 <==> Width(r) > 0 && Height(r) > 0)
    && (size == 0 ==> Width(r) == 0 && Height(r) == 0)
  }

  lemma CropConclusion(b: Bounds, w: int, h: int, r: Rect)
    requires 0 <= b.ymin <= b.ymax < h && 0 <= b.xmin <= b.xmax < w
    requires AxisDone(Padded(b, w, h).left, Padded(b, w, h).right, w, PatternSize(b, w, h), r.left, r.right)
    requires AxisDone(Padded(b, w, h).top, Padded(b, w, h).bottom, h, PatternSize(b, w, h), r.top, r.bottom)
    ensures GoodCrop(b, w, h, r)
  {
  }

  /** The crop computed by `process_frame` from the mask bounds `b` of a w x h
   *  image, step by step as the source reassigns it. */
  method SquareCrop(b: Bounds, w: int, h: int) returns (r: Rect)
    requires 0 <= b.ymin <= b.ymax < h && 0 <= b.xmin <= b.xmax < w
    ensures GoodCrop(b, w, h, r)
  {
    var padded := Padded(b, w, h);
    var xmin, ymin, xmax, ymax := padded.left, padded.top, padded.right, padded.bottom;
    var patternSize := Max(ymax - ymin, xmax - xmin);
    var squareXmin, squareXmax := CentreSide(xmin, xmax, w, patternSize);
    var squareYmin, squareYmax := CentreSide(ymin, ymax, h, patternSize);

    var width := squareXmax - squareXmin;
    var height := squareYmax - squareYmin;
    if width != height {
      var newSize := Max(width, height);
      assert newSize == patternSize;
      if width < newSize {
        squareXmin, squareXmax := ReexpandSide(squareXmin, squareXmax, xmin, xmax, w, newSize);
      }
      assert AxisDone(xmin, xmax, w, patternSize, squareXmin, squareXmax);
      if height < newSize {
        squareYmin, squareYmax := ReexpandSide(squareYmin, squareYmax, ymin, ymax, h, newSize);
      }
      assert AxisDone(ymin, ymax, h, patternSize, squareYmin, squareYmax);
    } else {
      assert AxisDone(xmin, xmax, w, patternSize, squareXmin, squareXmax);
      assert AxisDone(ymin, ymax, h, patternSize, squareYmin, squareYmax);
    }
    r := Rect(squareXmin, squareYmin, squareXmax, squareYmax);
    CropConclusion(b, w, h, r);
  }

  /** `process_frame_original`: the centred square of side min(w, h). */
  function CenterSquare(w: int, h: int): (r: Rect)
    requires w >= 0 && h >= 0
    ensures InImage(r, w, h)
    ensures Width(r) == Min(w, h) && Height(r) == Min(w, h)
    ensures r.left == (w - Min(w, h)) / 2 && r.top == (h - Min(w, h)) / 2
    // centred: the margins on opposite sides differ by at most one pixel
    ensures 0 <= (w - r.right) - r.left <= 1 && 0 <= (h - r.bottom) - r.top <= 1
  {
    var minDim := Min(w, h);
    var left := (w - minDim) / 2;
    var top := (h - minDim) / 2;
    Rect(left, top, left + minDim, top + minDim)
  }
}
