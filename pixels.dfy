/** RGBA rasters as the renderers see them through numpy: an H x W grid of
 *  8-bit red, green, blue and alpha channels. Holds the pixel tests, the two
 *  pixel rules both renderers share verbatim (`get_predominant_color` and
 *  `invert_black_white`), the masked write `result[mask] = colour`, and the
 *  bounding box of a foreground mask (`np.any` + `np.where(...)[[0, -1]]`). */
module Pixels {
  import opened Wrappers

  type Byte = x: int | 0 <= x < 256

  datatype Rgba = Rgba(r: Byte, g: Byte, b: Byte, a: Byte)

  // ---------------------------------------------------------------------------
  // Channel tests on the three colour channels (alpha is never consulted)

  predicate AllAtMost(p: Rgba, t: int) { p.r <= t && p.g <= t && p.b <= t }

  predicate AllAtLeast(p: Rgba, t: int) { p.r >= t && p.g >= t && p.b >= t }

  predicate AnyAtMost(p: Rgba, t: int) { p.r <= t || p.g <= t || p.b <= t }

  predicate AnyAtLeast(p: Rgba, t: int) { p.r >= t || p.g >= t || p.b >= t }

  /** `np.all(image[:, :, :3] <= 14, axis=2) & (image[:, :, 3] == 255)` */
  predicate IsStrictBlack(p: Rgba) { AllAtMost(p, 14) && p.a == 255 }

  /** `np.all(image[:, :, :3] == 255, axis=2) & (image[:, :, 3] == 255)` */
  predicate IsStrictWhite(p: Rgba) { p.r == 255 && p.g == 255 && p.b == 255 && p.a == 255 }

  const PureBlack := Rgba(0, 0, 0, 255)
  const PureWhite := Rgba(255, 255, 255, 255)

  // ---------------------------------------------------------------------------
  // invert_black_white

  /** One pixel of `invert_black_white(image, threshold)`: pixels whose colour
   *  channels are all <= t are written pure white, then pixels whose colour
   *  channels are all >= 255 - t are written pure black; the later write wins. */
  function InvertPixel(p: Rgba, t: int): Rgba
  {
    if AllAtLeast(p, 255 - t) then PureBlack
    else if AllAtMost(p, t) then PureWhite
    else p
  }

  /** With the default threshold 100 (or any t in [14, 241)), inversion turns
   *  strictly black pixels strictly white and strictly white ones strictly black. */
  lemma InvertSwapsStrictClasses(p: Rgba, t: int)
    requires 14 <= t < 241
    ensures IsStrictBlack(p) ==> IsStrictWhite(InvertPixel(p, t))
    ensures IsStrictWhite(p) ==> IsStrictBlack(InvertPixel(p, t))
  {
  }

  /** Inversion is undone by inverting again exactly on the pure tones. */
  lemma InvertPureTones(t: int)
    requires 0 <= t < 128
    ensures InvertPixel(InvertPixel(PureBlack, t), t) == PureBlack
    ensures InvertPixel(InvertPixel(PureWhite, t), t) == PureWhite
  {
  }

  // ---------------------------------------------------------------------------
  // Images and masked writes

  predicate SameShape(a: array2<Rgba>, b: array2<Rgba>)
  {
    a.Length0 == b.Length0 && a.Length1 == b.Length1
  }

  /** `image.copy()` */
  method CopyImage(image: array2<Rgba>) returns (copy: array2<Rgba>)
    ensures fresh(copy) && SameShape(copy, image)
    ensures forall y, x :: 0 <= y < image.Length0 && 0 <= x < image.Length1 ==> copy[y, x] == image[y, x]
  {
    copy := new Rgba[image.Length0, image.Length1]((y, x) reads image
      => if 0 <= y < image.Length0 && 0 <= x < image.Length1 then image[y, x] else PureBlack);
  }

  /** `result[mask] = colour`, where the mask was computed from `source`
   *  before any write. */
  method FillWhere(result: array2<Rgba>, source: array2<Rgba>, mask: Rgba -> bool, colour: Rgba)
    requires result != source && SameShape(result, source)
    modifies result
    ensures forall y, x :: 0 <= y < result.Length0 && 0 <= x < result.Length1 ==>
      result[y, x] == if mask(source[y, x]) then colour else old(result[y, x])
  {
    var y := 0;
    while y < result.Length0
      invariant 0 <= y <= result.Length0
      invariant forall i, j :: 0 <= i < y && 0 <= j < result.Length1 ==>
        result[i, j] == if mask(source[i, j]) then colour else old(result[i, j])
      invariant forall i, j :: y <= i < result.Length0 && 0 <= j < result.Length1 ==>
        result[i, j] == old(result[i, j])
    {
      var x := 0;
      while x < result.Length1
        invariant 0 <= x <= result.Length1
        invariant forall i, j :: 0 <= i < y && 0 <= j < result.Length1 ==>
          result[i, j] == if mask(source[i, j]) then colour else old(result[i, j])
        invariant forall j :: 0 <= j < x ==>
          result[y, j] == if mask(source[y, j]) then colour else old(result[y, j])
        invariant forall i, j :: (y < i < result.Length0 && 0 <= j < result.Length1) || (i == y && x <= j < result.Length1) ==>
          result[i, j] == old(result[i, j])
      {
        if mask(source[y, x]) {
          result[y, x] := colour;
        }
        x := x + 1;
      }
      y := y + 1;
    }
  }

  /** `invert_black_white(image, threshold)`: a copy of the image with the two
   *  masked writes applied; the input image is not modified. */
  method InvertBlackWhite(image: array2<Rgba>, threshold: int) returns (result: array2<Rgba>)
    ensures SameShape(result, image)
    ensures forall y, x :: 0 <= y < image.Length0 && 0 <= x < image.Length1 ==>
      result[y, x] == InvertPixel(image[y, x], threshold)
  {
    result := CopyImage(image);
    FillWhere(result, image, p => AllAtMost(p, threshold), PureWhite);
    FillWhere(result, image, p => AllAtLeast(p, 255 - threshold), PureBlack);
  }

  // ---------------------------------------------------------------------------
  // Counting pixels (np.sum of a mask)

  function CountInRow(image: array2<Rgba>, y: int, n: int, kind: Rgba -> bool): (c: nat)
    requires 0 <= y < image.Length0 && 0 <= n <= image.Length1
    reads image
    ensures c <= n
  {
    if n == 0 then 0 else CountInRow(image, y, n - 1, kind) + (if kind(image[y, n - 1]) then 1 else 0)
  }

  function CountInRows(image: array2<Rgba>, m: int, kind: Rgba -> bool): (c: nat)
    requires 0 <= m <= image.Length0
    reads image
    ensures c <= m * image.Length1
  {
    if m == 0 then 0 else CountInRows(image, m - 1, kind) + CountInRow(image, m - 1, image.Length1, kind)
  }

  /** Number of pixels of the image in the class. */
  function Count(image: array2<Rgba>, kind: Rgba -> bool): (c: nat)
    reads image
    ensures c <= image.Length0 * image.Length1
  {
    CountInRows(image, image.Length0, kind)
  }

  lemma {:induction false} CountInRowMono(a: array2<Rgba>, p: Rgba -> bool, b: array2<Rgba>, q: Rgba -> bool, y: int, n: int)
    requires SameShape(a, b) && 0 <= y < a.Length0 && 0 <= n <= a.Length1
    requires forall x :: 0 <= x < n && p(a[y, x]) ==> q(b[y, x])
    ensures CountInRow(a, y, n, p) <= CountInRow(b, y, n, q)
  {
    if n > 0 {
      CountInRowMono(a, p, b, q, y, n - 1);
    }
  }

  lemma {:induction false} CountInRowsMono(a: array2<Rgba>, p: Rgba -> bool, b: array2<Rgba>, q: Rgba -> bool, m: int)
    requires SameShape(a, b) && 0 <= m <= a.Length0
    requires forall y, x :: 0 <= y < m && 0 <= x < a.Length1 && p(a[y, x]) ==> q(b[y, x])
    ensures CountInRows(a, m, p) <= CountInRows(b, m, q)
  {
    if m > 0 {
      CountInRowsMono(a, p, b, q, m - 1);
      CountInRowMono(a, p, b, q, m - 1, a.Length1);
    }
  }

  /** If every pixel of class p in `a` sits where `b` has a pixel of class q,
   *  then `b` has at least as many pixels of class q as `a` has of class p. */
  lemma CountMono(a: array2<Rgba>, p: Rgba -> bool, b: array2<Rgba>, q: Rgba -> bool)
    requires SameShape(a, b)
    requires forall y, x :: 0 <= y < a.Length0 && 0 <= x < a.Length1 && p(a[y, x]) ==> q(b[y, x])
    ensures Count(a, p) <= Count(b, q)
  {
    CountInRowsMono(a, p, b, q, a.Length0);
  }

  lemma {:induction false} CountInRowUnion(a: array2<Rgba>, p: Rgba -> bool, q: Rgba -> bool, y: int, n: int)
    requires 0 <= y < a.Length0 && 0 <= n <= a.Length1
    requires forall x :: 0 <= x < n ==> !(p(a[y, x]) && q(a[y, x]))
    ensures CountInRow(a, y, n, p) + CountInRow(a, y, n, q) <= n
  {
    if n > 0 {
      CountInRowUnion(a, p, q, y, n - 1);
    }
  }

  lemma {:induction false} CountInRowsUnion(a: array2<Rgba>, p: Rgba -> bool, q: Rgba -> bool, m: int)
    requires 0 <= m <= a.Length0
    requires forall y, x :: 0 <= y < m && 0 <= x < a.Length1 ==> !(p(a[y, x]) && q(a[y, x]))
    ensures CountInRows(a, m, p) + CountInRows(a, m, q) <= m * a.Length1
  {
    if m > 0 {
      CountInRowsUnion(a, p, q, m - 1);
      CountInRowUnion(a, p, q, m - 1, a.Length1);
      assert (m - 1) * a.Length1 + a.Length1 == m * a.Length1;
    }
  }

  // ---------------------------------------------------------------------------
  // get_predominant_color (the label only; the percentage is a float)

  datatype Polarity = Black | White

  function BlackCount(image: array2<Rgba>): nat reads image { Count(image, IsStrictBlack) }

  function WhiteCount(image: array2<Rgba>): nat reads image { Count(image, IsStrictWhite) }

  /** "black" exactly when strictly black pixels outnumber strictly white ones,
   *  or when there are at most 10000 pixels of either kind together. */
  function PredominantColor(image: array2<Rgba>): (c: Polarity)
    reads image
    ensures c == Black <==> BlackCount(image) > WhiteCount(image) || BlackCount(image) + WhiteCount(image) <= 10000
  {
    var black := BlackCount(image);
    var white := WhiteCount(image);
    if black > white || black + white <= 10000 then Black else White
  }

  /** No pixel is both strictly black and strictly white, so the two counts
   *  together never exceed the number of pixels. */
  lemma StrictCountsBounded(image: array2<Rgba>)
    ensures BlackCount(image) + WhiteCount(image) <= image.Length0 * image.Length1
  {
    CountInRowsUnion(image, IsStrictBlack, IsStrictWhite, image.Length0);
  }

  /** An image of at most 10000 pixels is always labelled black; a white label
   *  means more than 5000 strictly white pixels, no fewer than the black ones. */
  lemma PredominantColorThresholds(image: array2<Rgba>)
    ensures image.Length0 * image.Length1 <= 10000 ==> PredominantColor(image) == Black
    ensures PredominantColor(image) == White ==> WhiteCount(image) > 5000 && WhiteCount(image) >= BlackCount(image)
  {
    StrictCountsBounded(image);
  }

  /** After `invert_black_white` with a threshold in [14, 241) the image has at
   *  least as many strictly white pixels as it had strictly black ones, and
   *  vice versa: inversion swaps the polarity the label is computed from. */
  lemma InvertSwapsCounts(image: array2<Rgba>, inverted: array2<Rgba>, t: int)
    requires 14 <= t < 241
    requires SameShape(image, inverted)
    requires forall y, x :: 0 <= y < image.Length0 && 0 <= x < image.Length1 ==>
      inverted[y, x] == InvertPixel(image[y, x], t)
    ensures WhiteCount(inverted) >= BlackCount(image)
    ensures BlackCount(inverted) >= WhiteCount(image)
  {
    forall y, x | 0 <= y < image.Length0 && 0 <= x < image.Length1
      ensures IsStrictBlack(image[y, x]) ==> IsStrictWhite(inverted[y, x])
      ensures IsStrictWhite(image[y, x]) ==> IsStrictBlack(inverted[y, x])
    {
      InvertSwapsStrictClasses(image[y, x], t);
    }
    CountMono(image, IsStrictBlack, inverted, IsStrictWhite);
    CountMono(image, IsStrictWhite, inverted, IsStrictBlack);
  }

  // ---------------------------------------------------------------------------
  // Bounding box of a foreground mask

  /** `np.any(mask, axis=1)[y]` */
  predicate RowHas(image: array2<Rgba>, fg: Rgba -> bool, y: int)
    requires 0 <= y < image.Length0
    reads image
  {
    exists x :: 0 <= x < image.Length1 && fg(image[y, x])
  }

  /** `np.any(mask, axis=0)[x]` */
  predicate ColHas(image: array2<Rgba>, fg: Rgba -> bool, x: int)
    requires 0 <= x < image.Length1
    reads image
  {
    exists y :: 0 <= y < image.Length0 && fg(image[y, x])
  }

  /** `np.where(s)[0][0]`, or None when no entry is set. */
  function FirstSet(s: seq<bool>): (k: Option<nat>)
    ensures k.None? <==> forall i :: 0 <= i < |s| ==> !s[i]
    ensures k.Some? ==> k.value < |s| && s[k.value] && forall i :: 0 <= i < k.value ==> !s[i]
  {
    if s == [] then None
    else if s[0] then Some(0)
    else match FirstSet(s[1..]) {
      case None => None
      case Some(k) => Some(k + 1)
    }
  }

  /** `np.where(s)[0][-1]`, or None when no entry is set. */
  function LastSet(s: seq<bool>): (k: Option<nat>)
    ensures k.None? <==> forall i :: 0 <= i < |s| ==> !s[i]
    ensures k.Some? ==> k.value < |s| && s[k.value] && forall i :: k.value < i < |s| ==> !s[i]
  {
    if s == [] then None
    else if s[|s| - 1] then Some(|s| - 1)
    else LastSet(s[..|s| - 1])
  }

  /** First and last foreground row and column, all inclusive indices. */
  datatype Bounds = Bounds(ymin: int, ymax: int, xmin: int, xmax: int)

  predicate HasForeground(image: array2<Rgba>, fg: Rgba -> bool)
    reads image
  {
    exists y, x :: 0 <= y < image.Length0 && 0 <= x < image.Length1 && fg(image[y, x])
  }

  /** `np.any(mask, axis=1)` */
  function RowMask(image: array2<Rgba>, fg: Rgba -> bool): (rows: seq<bool>)
    reads image
    ensures |rows| == image.Length0
    ensures forall y :: 0 <= y < image.Length0 ==> (rows[y] <==> RowHas(image, fg, y))
  {
    seq(image.Length0, y reads image => 0 <= y < image.Length0 && RowHas(image, fg, y))
  }

  /** `np.any(mask, axis=0)` */
  function ColMask(image: array2<Rgba>, fg: Rgba -> bool): (cols: seq<bool>)
    reads image
    ensures |cols| == image.Length1
    ensures forall x :: 0 <= x < image.Length1 ==> (cols[x] <==> ColHas(image, fg, x))
  {
    seq(image.Length1, x reads image => 0 <= x < image.Length1 && ColHas(image, fg, x))
  }

  lemma ProjectionsOfForeground(image: array2<Rgba>, fg: Rgba -> bool)
    ensures HasForeground(image, fg) <==> FirstSet(RowMask(image, fg)).Some?
    ensures HasForeground(image, fg) <==> FirstSet(ColMask(image, fg)).Some?
    ensures forall y, x :: 0 <= y < image.Length0 && 0 <= x < image.Length1 && fg(image[y, x]) ==>
      RowMask(image, fg)[y] && ColMask(image, fg)[x]
  {
    var rows, cols := RowMask(image, fg), ColMask(image, fg);
    if HasForeground(image, fg) {
      var y, x :| 0 <= y < image.Length0 && 0 <= x < image.Length1 && fg(image[y, x]);
      assert rows[y] && cols[x];
    }
    if FirstSet(rows).Some? {
      var y := FirstSet(rows).value;
      assert RowHas(image, fg, y);
    }
    if FirstSet(cols).Some? {
      var x := FirstSet(cols).value;
      assert ColHas(image, fg, x);
    }
  }

  /** The first and last set entries of the row and column projections of the
   *  mask `fg(image[y, x])`: the tightest box holding every foreground pixel,
   *  or None when the mask is empty. */
  function MaskBounds(image: array2<Rgba>, fg: Rgba -> bool): (b: Option<Bounds>)
    reads image
    ensures b.None? <==> !HasForeground(image, fg)
    ensures b.Some? ==>
      && 0 <= b.value.ymin <= b.value.ymax < image.Length0
      && 0 <= b.value.xmin <= b.value.xmax < image.Length1
      && (forall y, x :: 0 <= y < image.Length0 && 0 <= x < image.Length1 && fg(image[y, x]) ==>
            b.value.ymin <= y <= b.value.ymax && b.value.xmin <= x <= b.value.xmax)
      && RowHas(image, fg, b.value.ymin) && RowHas(image, fg, b.value.ymax)
      && ColHas(image, fg, b.value.xmin) && ColHas(image, fg, b.value.xmax)
  {
    var rows := RowMask(image, fg);
    var cols := ColMask(image, fg);
    ProjectionsOfForeground(image, fg);
    if FirstSet(rows).None? || FirstSet(cols).None? then None
    else Some(Bounds(FirstSet(rows).value, LastSet(rows).value, FirstSet(cols).value, LastSet(cols).value))
  }

  /** The bounds depend only on which cells are foreground: two images of the
   *  same shape whose masks agree cell by cell have the same bounds. */
  lemma MaskBoundsTransfer(a: array2<Rgba>, f: Rgba -> bool, b: array2<Rgba>, g: Rgba -> bool)
    requires SameShape(a, b)
    requires forall y, x :: 0 <= y < a.Length0 && 0 <= x < a.Length1 ==> f(a[y, x]) == g(b[y, x])
    ensures MaskBounds(a, f) == MaskBounds(b, g)
  {
    assert RowMask(a, f) == RowMask(b, g) by {
      forall y | 0 <= y < a.Length0
        ensures RowHas(a, f, y) == RowHas(b, g, y)
      {
        if RowHas(a, f, y) {
          var x :| 0 <= x < a.Length1 && f(a[y, x]);
          assert g(b[y, x]);
        }
        if RowHas(b, g, y) {
          var x :| 0 <= x < b.Length1 && g(b[y, x]);
          assert f(a[y, x]);
        }
      }
    }
    assert ColMask(a, f) == ColMask(b, g) by {
      forall x | 0 <= x < a.Length1
        ensures ColHas(a, f, x) == ColHas(b, g, x)
      {
        if ColHas(a, f, x) {
          var y :| 0 <= y < a.Length0 && f(a[y, x]);
          assert g(b[y, x]);
        }
        if ColHas(b, g, x) {
          var y :| 0 <= y < b.Length0 && g(b[y, x]);
          assert f(a[y, x]);
        }
      }
    }
  }
}
