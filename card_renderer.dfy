/** The card renderer (`CardRenderer`): its fixed configuration, the colour
 *  remap of the artwork, the frame preparation and crop of `process_frame`,
 *  the title size search, the output file name, the dark-mode test and the
 *  grid layout of `create_card_grid`. */
module CardRenderer {
  import opened Wrappers
  import opened Text
  import opened Pixels
  import opened FrameGeometry
  import opened TextFit

  // ---------------------------------------------------------------------------
  // Configuration

  /** `min(max(300, ppi), 900)`. */
  function ClampPpi(ppi: int): (r: int)
    ensures 300 <= r <= 900
    ensures 300 <= ppi <= 900 ==> r == ppi
    ensures ppi < 300 ==> r == 300
    ensures ppi > 900 ==> r == 900
  {
    Min(Max(300, ppi), 900)
  }

  datatype Config = Config(ppi: int, width: int, height: int)

  /** The constructor: the resolution is clamped, but the pixel size computed
   *  from it is overwritten by the fixed 2448 x 3330. */
  function NewCardRenderer(ppi: int): (c: Config)
    ensures 300 <= c.ppi <= 900
    ensures c.width == 2448 && c.height == 3330
  {
    Config(ClampPpi(ppi), 2448, 3330)
  }

  const CardWidth := 2448
  const CardHeight := 3330
  const BorderWidth := 40

  /** `round(self.width / 16)`: the valence font size. */
  const ValenceFontSize := 153
  /** `round(base_size * 0.9)`: the paragraph font size, also the start of the
   *  paragraph size search. */
  const TextFontSize := 138
  /** `round(self.width / 15)` and `round(base_size * 0.5)`: the title size range. */
  const TitleBaseSize := 163
  const TitleMinSize := 82

  /** The constants are Python's rounding of the source expressions. */
  lemma FontSizes()
    ensures RoundHalfEven(CardWidth, 16) == ValenceFontSize
    ensures RoundHalfEven(ValenceFontSize * 9, 10) == TextFontSize
    ensures RoundHalfEven(CardWidth, 15) == TitleBaseSize
    ensures RoundHalfEven(TitleBaseSize, 2) == TitleMinSize
  {
    assert 2 * Abs(CardWidth - RoundHalfEven(CardWidth, 15) * 15) <= 15;
    assert 2 * Abs(TitleBaseSize - RoundHalfEven(TitleBaseSize, 2) * 2) == 2 ==> RoundHalfEven(TitleBaseSize, 2) % 2 == 0;
  }

  // ---------------------------------------------------------------------------
  // set_black__white_to_off_black_white (threshold 100)

  const OffBlack := Rgba(12, 12, 12, 255)
  const OffWhite := Rgba(225, 225, 225, 255)

  /** One pixel of the remap: pixels whose colour channels are all <= t become
   *  off-black, then pixels whose colour channels are all >= 255 - t become
   *  off-white (the later write wins); alpha is not consulted. */
  function OffBlackWhitePixel(p: Rgba, t: int): Rgba
  {
    if AllAtLeast(p, 255 - t) then OffWhite
    else if AllAtMost(p, t) then OffBlack
    else p
  }

  /** `set_black__white_to_off_black_white(image, threshold)`: a copy of the
   *  image with the two masked writes, both masks taken from the input. */
  method OffBlackWhiteImage(image: array2<Rgba>, threshold: int) returns (result: array2<Rgba>)
    ensures SameShape(result, image)
    ensures forall y, x :: 0 <= y < image.Length0 && 0 <= x < image.Length1 ==>
      result[y, x] == OffBlackWhitePixel(image[y, x], threshold)
  {
    result := CopyImage(image);
    FillWhere(result, image, p => AllAtMost(p, threshold), OffBlack);
    FillWhere(result, image, p => AllAtLeast(p, 255 - threshold), OffWhite);
  }

  /** Remapping twice is the same as remapping once exactly for thresholds
   *  below 243 (so for the default 100) or of at least 255: for t in
   *  [243, 255) pure black becomes off-black and then off-white. */
  lemma OffBlackWhiteIdempotent(t: int)
    ensures (forall p :: OffBlackWhitePixel(OffBlackWhitePixel(p, t), t) == OffBlackWhitePixel(p, t))
            <==> t < 243 || t >= 255
  {
    if 243 <= t < 255 {
      var p := PureBlack;
      assert OffBlackWhitePixel(p, t) == OffBlack;
      assert OffBlackWhitePixel(OffBlack, t) == OffWhite;
    }
  }

  // ---------------------------------------------------------------------------
  // process_frame: preparing the artwork and choosing the crop

  /** The pattern mask of the card renderer: some colour channel above 0. */
  predicate IsPattern(p: Rgba) { AnyAtLeast(p, 1) }

  /** The same mask seen through the inversion with threshold 100. */
  predicate IsPatternOfInverted(p: Rgba) { IsPattern(InvertPixel(p, 100)) }

  function PatternMask(inverted: bool): Rgba -> bool
  {
    if inverted then IsPatternOfInverted else IsPattern
  }

  /** What `process_frame` does to the pixels: with dark mode forced on, the
   *  frame is inverted when white predominates, and then remapped to off-black
   *  and off-white. */
  function PreparedPixel(p: Rgba, inverted: bool): Rgba
  {
    OffBlackWhitePixel(if inverted then InvertPixel(p, 100) else p, 100)
  }

  /** `process_frame` up to the crop, for an RGBA frame: the prepared pixels
   *  (the crop is taken from them), and the crop rectangle, which is the
   *  centre square of the fallback `process_frame_original` when the pattern
   *  mask - computed after the inversion and before the remap - is empty, and
   *  otherwise the padded square around the mask bounds.  A crop of height 0
   *  makes `maintain_aspect_ratio` divide by zero; that happens exactly when
   *  the pattern size is 0, as for a single foreground pixel. */
  method ProcessFrame(input: array2<Rgba>) returns (prepared: array2<Rgba>, crop: Result<Rect>, fellBack: bool)
    ensures SameShape(prepared, input)
    ensures forall y, x :: 0 <= y < input.Length0 && 0 <= x < input.Length1 ==>
      prepared[y, x] == PreparedPixel(input[y, x], PredominantColor(input) == White)
    ensures fellBack <==> MaskBounds(input, PatternMask(PredominantColor(input) == White)).None?
    ensures fellBack ==> crop == Ok(CenterSquare(input.Length1, input.Length0))
    ensures !fellBack ==>
      (crop.Err? <==> PatternSize(MaskBounds(input, PatternMask(PredominantColor(input) == White)).value,
                                  input.Length1, input.Length0) == 0)
    ensures crop.Err? ==> crop.error == "ZeroDivisionError"
    ensures !fellBack && crop.Ok? ==>
      GoodCrop(MaskBounds(input, PatternMask(PredominantColor(input) == White)).value,
               input.Length1, input.Length0, crop.value)
  {
    var inverted := PredominantColor(input) == White;
    var oriented := input;
    if inverted {
      oriented := InvertBlackWhite(input, 100);
    }
    MaskBoundsTransfer(oriented, IsPattern, input, PatternMask(inverted));
    var bounds := MaskBounds(oriented, IsPattern);
    prepared := OffBlackWhiteImage(oriented, 100);
    if bounds.None? {
      crop := Ok(CenterSquare(input.Length1, input.Length0));
      fellBack := true;
    } else {
      var r := SquareCrop(bounds.value, input.Length1, input.Length0);
      if Height(r) == 0 {
        crop := Err("ZeroDivisionError");
      } else {
        crop := Ok(r);
      }
      fellBack := false;
    }
  }

  /** `text_offset` of the card renderer: 20 pixels per wrapped line of the
   *  card text, at most 100, or 0 when the card data has no text. */
  function TextOffset(lineCount: Option<nat>): (off: int)
    ensures 0 <= off <= 100
    ensures lineCount.None? ==> off == 0
    ensures lineCount.Some? && lineCount.value <= 5 ==> off == 20 * lineCount.value
  {
    if lineCount.None? then 0 else Min(lineCount.value * 20, 100)
  }

  /** The paste position of the resized crop (sw x sh) on a canvas target
   *  (tw x th, drawn 1000 pixels taller): centred horizontally, centred
   *  vertically, raised by the text offset and lowered by 500. */
  function PastePosition(tw: int, th: int, sw: int, sh: int, lineCount: Option<nat>): (pos: (int, int))
    ensures 0 <= (tw - sw) - 2 * pos.0 <= 1
    ensures 0 <= (th - sh) - 2 * (pos.1 + TextOffset(lineCount) - 500) <= 1
  {
    ((tw - sw) / 2, (th - sh) / 2 - TextOffset(lineCount) + 500)
  }

  /** The line count behind the offset: the card text wrapped (without the
   *  over-long rule) at the text font, in the text box width. */
  function CardTextLines(m: Metrics, text: Option<string>, boxWidth: real): (n: Option<nat>)
    ensures text.None? <==> n.None?
    ensures text.Some? ==> (n.value == 0 <==> Words(text.value) == [])
  {
    if text.None? then None
    else
      WrappedLinesSound(Wrapper(m, TextFontSize, boxWidth, false), text.value);
      Some(|WrappedLines(Wrapper(m, TextFontSize, boxWidth, false), text.value)|)
  }

  // ---------------------------------------------------------------------------
  // render_card: title size, file name, dark mode

  predicate TitleFits(m: Metrics, name: string, size: int, maxWidth: real)
  {
    m.width(name, size) as real <= maxWidth
  }

  /** The title size loop `for size in range(base_size, min_size - 1, -1)`: the
   *  largest size from 163 down to 82 at which the name fits the width, or 82
   *  when none does. */
  method TitleFontSize(m: Metrics, name: string, maxWidth: real) returns (size: int)
    ensures TitleMinSize <= size <= TitleBaseSize
    ensures forall s :: size < s <= TitleBaseSize ==> !TitleFits(m, name, s, maxWidth)
    ensures TitleFits(m, name, size, maxWidth) ||
            (size == TitleMinSize && forall s :: TitleMinSize <= s <= TitleBaseSize ==> !TitleFits(m, name, s, maxWidth))
  {
    var currentFont: Option<int> := None;
    var s := TitleBaseSize;
    while s >= TitleMinSize
      invariant TitleMinSize - 1 <= s <= TitleBaseSize
      invariant forall k :: s < k <= TitleBaseSize ==> !TitleFits(m, name, k, maxWidth)
      invariant currentFont.None?
      decreases s
    {
      var testWidth := m.width(name, s);
      if testWidth as real <= maxWidth {
        currentFont := Some(s);
        break;
      }
      s := s - 1;
    }
    if currentFont.None? {
      size := TitleMinSize;
    } else {
      size := currentFont.value;
    }
  }

  /** `name.lower().replace(' ', '_')`. */
  function Slug(name: string): (r: string)
    ensures |r| == |name|
    ensures forall i :: 0 <= i < |name| ==> r[i] == if name[i] == ' ' then '_' else LowerChar(name[i])
  {
    if name == [] then []
    else [if name[0] == ' ' then '_' else LowerChar(name[0])] + Slug(name[1..])
  }

  /** A slug has no spaces and no upper-case letters, and slugging it again
   *  changes nothing. */
  lemma SlugShape(name: string)
    ensures forall i :: 0 <= i < |Slug(name)| ==> Slug(name)[i] != ' ' && !IsUpper(Slug(name)[i])
    ensures Slug(Slug(name)) == Slug(name)
  {
  }

  /** `"Arcana" in card_data.get('type', '').split()`. */
  predicate IsDarkMode(cardType: Option<string>)
  {
    "Arcana" in Words(cardType.GetOr(""))
  }

  /** For a type made of words separated by single spaces, dark mode means
   *  "Arcana" is one of its words (a longer word containing it does not count). */
  lemma DarkModeOfWords(ws: seq<string>)
    requires forall i :: 0 <= i < |ws| ==> IsWord(ws[i])
    ensures IsDarkMode(Some(JoinSpace(ws))) <==> "Arcana" in ws
    ensures !IsDarkMode(None)
  {
    WordsOfJoin(ws);
    assert Words("") == [];
  }

  // ---------------------------------------------------------------------------
  // create_card_grid

  datatype Size = Size(width: nat, height: nat)

  /** `(n + cols - 1) // cols` */
  function CeilDiv(n: int, cols: int): int
    requires cols >= 1
  {
    (n + cols - 1) / cols
  }

  /** The rows are the fewest that hold n cards in `cols` columns. */
  lemma CeilDivBounds(n: int, cols: int)
    requires n >= 1 && cols >= 1
    ensures 1 <= CeilDiv(n, cols) <= n
    ensures cols * CeilDiv(n, cols) >= n
    ensures cols * (CeilDiv(n, cols) - 1) < n
  {
    var q := CeilDiv(n, cols);
    var r := (n + cols - 1) % cols;
    assert n + cols - 1 == cols * q + r;
    assert cols * (q - 1) == cols * q - cols;
    LtOfMulLt(cols, 0, q);
    MulLe(1, cols, n);
    LtOfMulLt(cols, q - 1, n);
  }

  /** `abs(grid_ratio - target_ratio)` for `cols` columns of n cards of size w x h. */
  function RatioDiff(cols: int, n: int, w: nat, h: nat): real
    requires cols >= 1 && n >= 1 && h > 0
  {
    CeilDivBounds(n, cols);
    var rows := CeilDiv(n, cols);
    var gridRatio := (cols * w) as real / (rows * h) as real;
    var d := gridRatio - 16.0 / 9.0;
    if d < 0.0 then -d else d
  }

  /** The column search: the column count in 1..n whose grid ratio is closest
   *  to 16:9, the smallest one on a tie (the comparison is strict); with no
   *  cards to show the loop does not run and the initial one column and n
   *  rows stand. */
  method BestGrid(n: int, w: nat, h: nat) returns (cols: int, rows: int)
    requires n >= 1 ==> h > 0
    ensures n < 1 ==> cols == 1 && rows == n
    ensures n >= 1 ==> 1 <= cols <= n && rows == CeilDiv(n, cols)
    ensures n >= 1 ==> forall c :: 1 <= c <= n ==> RatioDiff(cols, n, w, h) <= RatioDiff(c, n, w, h)
    ensures n >= 1 ==> forall c :: 1 <= c < cols ==> RatioDiff(cols, n, w, h) < RatioDiff(c, n, w, h)
  {
    var bestCols := 1;
    var bestRows := n;
    var bestRatioDiff: Option<real> := None;
    var c := 1;
    while c <= n
      invariant n >= 1 ==> 1 <= c <= n + 1
      invariant n < 1 ==> c == 1
      invariant c == 1 ==> bestCols == 1 && bestRows == n && bestRatioDiff.None?
      invariant c > 1 ==> 1 <= bestCols < c && bestRows == CeilDiv(n, bestCols)
      invariant c > 1 ==> bestRatioDiff == Some(RatioDiff(bestCols, n, w, h))
      invariant c > 1 ==> forall k :: 1 <= k < c ==> RatioDiff(bestCols, n, w, h) <= RatioDiff(k, n, w, h)
      invariant c > 1 ==> forall k :: 1 <= k < bestCols ==> RatioDiff(bestCols, n, w, h) < RatioDiff(k, n, w, h)
    {
      var r := CeilDiv(n, c);
      var ratioDiff := RatioDiff(c, n, w, h);
      if bestRatioDiff.None? || ratioDiff < bestRatioDiff.value {
        bestRatioDiff := Some(ratioDiff);
        bestCols := c;
        bestRows := r;
      }
      c := c + 1;
    }
    cols, rows := bestCols, bestRows;
  }

  const GridPadding := 50
  const GridSpacing := 20

  function TotalWidth(cols: int, w: int): int { cols * w + (cols - 1) * GridSpacing + GridPadding * 2 }

  function TotalHeight(rows: int, h: int): int { rows * h + (rows - 1) * GridSpacing + GridPadding * 2 }

  /** The top-left corner of card i. */
  function CardPosition(i: int, cols: int, w: int, h: int): (int, int)
    requires cols >= 1
  {
    (GridPadding + (i % cols) * (w + GridSpacing), GridPadding + (i / cols) * (h + GridSpacing))
  }

  lemma MulLe(a: int, b: int, k: int)
    requires a <= b && k >= 0
    ensures a * k <= b * k
  {
  }

  lemma LtOfMulLt(k: int, a: int, b: int)
    requires k >= 1 && k * a < k * b
    ensures a < b
  {
  }

  /** Card i sits in column i % cols and row i / cols, and that row is one of
   *  the ceil(n / cols) rows when i < n. */
  lemma CardCell(i: int, n: int, cols: int)
    requires n >= 1 && 1 <= cols && 0 <= i < n
    ensures 0 <= i % cols < cols
    ensures 0 <= i / cols < CeilDiv(n, cols)
  {
    CeilDivBounds(n, cols);
    var rows := CeilDiv(n, cols);
    var row := i / cols;
    assert cols * row <= i;
    LtOfMulLt(cols, row, rows);
  }

  /** Every shown card lies inside the grid image, within the outer padding. */
  lemma CardInsideGrid(i: int, n: int, cols: int, w: nat, h: nat)
    requires n >= 1 && 1 <= cols && 0 <= i < n
    ensures GridPadding <= CardPosition(i, cols, w, h).0
    ensures CardPosition(i, cols, w, h).0 + w <= TotalWidth(cols, w) - GridPadding
    ensures GridPadding <= CardPosition(i, cols, w, h).1
    ensures CardPosition(i, cols, w, h).1 + h <= TotalHeight(CeilDiv(n, cols), h) - GridPadding
  {
    CardCell(i, n, cols);
    var rows := CeilDiv(n, cols);
    var col := i % cols;
    var row := i / cols;
    MulLe(col, cols - 1, w + GridSpacing);
    MulLe(row, rows - 1, h + GridSpacing);
    MulLe(0, col, w + GridSpacing);
    MulLe(0, row, h + GridSpacing);
    assert (cols - 1) * (w + GridSpacing) == cols * w + (cols - 1) * GridSpacing - w;
    assert (rows - 1) * (h + GridSpacing) == rows * h + (rows - 1) * GridSpacing - h;
  }

  /** Positions a whole number of steps apart along one axis. */
  lemma StepApart(a: int, b: int, step: int)
    requires a < b && step >= 0
    ensures b * step - a * step >= step
  {
    MulLe(a + 1, b, step);
  }

  /** Two different cards never overlap: they are a card width plus the
   *  spacing apart horizontally, or a card height plus the spacing vertically. */
  lemma CardsDisjoint(i: int, j: int, cols: int, w: nat, h: nat)
    requires 0 <= i < j && cols >= 1
    ensures Abs(CardPosition(i, cols, w, h).0 - CardPosition(j, cols, w, h).0) >= w + GridSpacing ||
            Abs(CardPosition(i, cols, w, h).1 - CardPosition(j, cols, w, h).1) >= h + GridSpacing
  {
    var ci, ri := i % cols, i / cols;
    var cj, rj := j % cols, j / cols;
    if ci == cj {
      assert ri != rj by {
        assert i == cols * ri + ci && j == cols * rj + cj;
      }
      if ri < rj {
        StepApart(ri, rj, h + GridSpacing);
      } else {
        StepApart(rj, ri, h + GridSpacing);
      }
    } else if ci < cj {
      StepApart(ci, cj, w + GridSpacing);
    } else {
      StepApart(cj, ci, w + GridSpacing);
    }
  }

  /** The placement loop over the loaded images, stopping at the n-th. */
  method PlaceCards(count: nat, n: int, cols: int, w: int, h: int) returns (positions: seq<(int, int)>)
    requires cols >= 1
    ensures |positions| == Min(count, Max(n, 0))
    ensures forall i :: 0 <= i < |positions| ==> positions[i] == CardPosition(i, cols, w, h)
  {
    positions := [];
    var i := 0;
    while i < count
      invariant 0 <= i <= count
      invariant i <= Max(n, 0)
      invariant |positions| == i
      invariant forall k :: 0 <= k < i ==> positions[k] == CardPosition(k, cols, w, h)
    {
      if i >= n {
        break;
      }
      var row := i / cols;
      var col := i % cols;
      var x := GridPadding + col * (w + GridSpacing);
      var y := GridPadding + row * (h + GridSpacing);
      positions := positions + [(x, y)];
      i := i + 1;
    }
  }

  /** The final size: a grid wider than 1920 pixels is scaled to exactly 1920
   *  wide, its height scaled by the same factor and truncated. */
  function FinalSize(totalWidth: int, totalHeight: int): (s: (int, int))
    requires totalHeight >= 0
    ensures totalWidth <= 1920 ==> s == (totalWidth, totalHeight)
    ensures totalWidth > 1920 ==> s.0 == 1920 && s.1 >= 0
    ensures totalWidth > 1920 ==> s.1 * totalWidth <= totalHeight * 1920 < (s.1 + 1) * totalWidth
  {
    if totalWidth > 1920 then (1920, totalHeight * 1920 / totalWidth) else (totalWidth, totalHeight)
  }

  /** `num_cards`, defaulted and capped to the number of cards given. */
  function CardsShown(numCards: Option<int>, available: nat): (n: int)
    ensures n <= available
    ensures numCards.None? ==> n == available
    ensures numCards.Some? ==> n == Min(numCards.value, available)
  {
    if numCards.None? || numCards.value > available then available else numCards.value
  }

  /** The images that load, in order; a card whose image cannot be opened or
   *  rendered is skipped. */
  function Loaded<T>(cards: seq<T>, load: T -> Option<Size>): (images: seq<Size>)
    ensures |images| <= |cards|
  {
    if cards == [] then []
    else (if load(cards[0]).Some? then [load(cards[0]).value] else []) + Loaded(cards[1..], load)
  }

  datatype Grid = Grid(cols: int, rows: int, positions: seq<(int, int)>,
                       totalWidth: int, totalHeight: int, finalWidth: int, finalHeight: int)

  const NoCardsError := "ValueError: No valid card images could be loaded"

  /** `create_card_grid`: the first n cards are loaded; with none loaded it
   *  fails; the grid and its size follow from num_cards (not from the number
   *  of loaded images) and the first loaded image's size. */
  method CreateCardGrid<T>(cards: seq<T>, numCards: Option<int>, load: T -> Option<Size>) returns (r: Result<Grid>)
    ensures Loaded(PyPrefix(cards, CardsShown(numCards, |cards|)), load) == [] ==> r == Err(NoCardsError)
    ensures r.Ok? ==>
      var n := CardsShown(numCards, |cards|);
      var images := Loaded(PyPrefix(cards, n), load);
      var w, h := images[0].width, images[0].height;
      && images != []
      && (n >= 1 ==> h > 0)
      && (n >= 1 ==> 1 <= r.value.cols <= n && r.value.rows == CeilDiv(n, r.value.cols))
      && (n >= 1 ==> forall c :: 1 <= c <= n ==> RatioDiff(r.value.cols, n, w, h) <= RatioDiff(c, n, w, h))
      && (n >= 1 ==> forall c :: 1 <= c < r.value.cols ==> RatioDiff(r.value.cols, n, w, h) < RatioDiff(c, n, w, h))
      && |r.value.positions| == Min(|images|, Max(n, 0))
      && (forall i :: 0 <= i < |r.value.positions| ==> r.value.positions[i] == CardPosition(i, r.value.cols, w, h))
      && r.value.totalWidth == TotalWidth(r.value.cols, w)
      && r.value.totalHeight == TotalHeight(r.value.rows, h)
      && r.value.totalWidth >= 0 && r.value.totalHeight >= 0
      && (r.value.finalWidth, r.value.finalHeight) == FinalSize(r.value.totalWidth, r.value.totalHeight)
    ensures r.Err? && Loaded(PyPrefix(cards, CardsShown(numCards, |cards|)), load) != [] ==>
      var n := CardsShown(numCards, |cards|);
      var images := Loaded(PyPrefix(cards, n), load);
      (n >= 1 && images[0].height == 0 && r == Err("ZeroDivisionError")) ||
      (n < 1 && r == Err("ValueError: Width and height must be >= 0"))
  {
    var n := CardsShown(numCards, |cards|);
    var selected := PyPrefix(cards, n);
    var images := Loaded(selected, load);
    if images == [] {
      return Err(NoCardsError);
    }
    var w := images[0].width;
    var h := images[0].height;
    if n >= 1 && h == 0 {
      return Err("ZeroDivisionError");
    }
    var cols, rows := BestGrid(n, w, h);
    var totalWidth := TotalWidth(cols, w);
    var totalHeight := TotalHeight(rows, h);
    if totalWidth < 0 || totalHeight < 0 {
      return Err("ValueError: Width and height must be >= 0");
    }
    var positions := PlaceCards(|images|, n, cols, w, h);
    var finalSize := FinalSize(totalWidth, totalHeight);
    r := Ok(Grid(cols, rows, positions, totalWidth, totalHeight, finalSize.0, finalSize.1));
  }
}
