/** The ritual renderer (`RitualRenderer`): its fixed landscape configuration,
 *  the two-pass colour remap with its palettes, the frame mask and crop of
 *  `process_frame` with the paste offset, the title placement of
 *  `render_card_title`, the faux-bold offsets of `draw_semibold_text`, and the
 *  output name and colour scheme chosen by `render_card`, `render_fate` and
 *  `render_ritual`.  The crop geometry, the wrap and the size search are the
 *  shared ones of `FrameGeometry` and `TextFit`. */
module RitualRenderer {
  import opened Wrappers
  import opened Text
  import opened Pixels
  import opened FrameGeometry
  import opened TextFit
  import CardRenderer

  // ---------------------------------------------------------------------------
  // Configuration

  /** The constructor: the resolution is clamped into [300, 900], but the pixel
   *  size computed from it is overwritten by the fixed 3330 x 2448. */
  function NewRitualRenderer(ppi: int): (c: CardRenderer.Config)
    ensures 300 <= c.ppi <= 900
    ensures 300 <= ppi <= 900 ==> c.ppi == ppi
    ensures c.width == 3330 && c.height == 2448
  {
    CardRenderer.Config(CardRenderer.ClampPpi(ppi), 3330, 2448)
  }

  const RitualWidth := 3330
  const RitualHeight := 2448

  /** `round(self.height / 16)` and `round(base_size * 0.9)`: the text font. */
  const TextFontSize := 138
  /** `int(self.text_font.size / 1.5)`: the start size of the side texts. */
  const SideTextStart := 92
  /** `round(self.width / 25.0)`: the base size given to `render_card_title`. */
  const SideTitleBase := 133

  lemma FontSizes()
    ensures RoundHalfEven(RitualHeight, 16) * 9 / 10 == 137 && RoundHalfEven(RoundHalfEven(RitualHeight, 16) * 9, 10) == TextFontSize
    ensures TextFontSize * 2 / 3 == SideTextStart && TextFontSize * 2 % 3 == 0
    ensures RoundHalfEven(RitualWidth, 25) == SideTitleBase
  {
    assert 2 * Abs(RitualHeight - RoundHalfEven(RitualHeight, 16) * 16) <= 16;
    assert 2 * Abs(RitualWidth - RoundHalfEven(RitualWidth, 25) * 25) <= 25;
  }

  // ---------------------------------------------------------------------------
  // Palettes and the two-pass remap

  /** The colours of a palette that the remap and the side texts use; the light
   *  palette has no 'darktext' entry. */
  datatype Palette = Palette(border: Rgba, text: Rgba, darkText: Option<Rgba>,
                             background: Rgba, backgroundEmpty: Rgba, cost: Rgba)

  const DarkPalette := Palette(Rgba(255, 255, 255, 255), Rgba(255, 255, 255, 255), Some(Rgba(12, 12, 12, 255)),
                               Rgba(12, 12, 12, 255), Rgba(12, 12, 12, 0), Rgba(12, 12, 12, 255))
  const LightPalette := Palette(Rgba(225, 225, 225, 255), Rgba(225, 225, 225, 255), None,
                                Rgba(12, 12, 12, 255), Rgba(12, 12, 12, 0), Rgba(12, 12, 12, 255))

  /** `self.dark_mode if dark_mode else self.light_mode` */
  function PaletteFor(dark: bool): (pal: Palette)
    ensures pal.background == Rgba(12, 12, 12, 255) && pal.backgroundEmpty == Rgba(12, 12, 12, 0)
    ensures pal.text == (if dark then Rgba(255, 255, 255, 255) else Rgba(225, 225, 225, 255))
    ensures pal.darkText.Some? <==> dark
  {
    if dark then DarkPalette else LightPalette
  }

  /** Near-black and near-white in the ritual renderer: ANY colour channel
   *  within the threshold of 0 or of 255. */
  predicate NearBlack(p: Rgba, t: int) { AnyAtMost(p, t) }
  predicate NearWhite(p: Rgba, t: int) { AnyAtLeast(p, 255 - t) }

  /** The masks of the two passes (opaque enough, then transparent enough). */
  predicate OpaqueBlack(p: Rgba, t: int) { p.a >= t && NearBlack(p, t) }
  predicate OpaqueWhite(p: Rgba, t: int) { p.a >= t && NearWhite(p, t) }
  predicate ClearBlack(p: Rgba, t: int) { p.a <= t && NearBlack(p, t) }
  predicate ClearWhite(p: Rgba, t: int) { p.a <= t && NearWhite(p, t) }

  /** The outcome of the four masked writes on one pixel: near-white wins and
   *  becomes the text colour whatever its alpha; a near-black pixel becomes
   *  the transparent background when its alpha is at most t (the second pass
   *  writes last, so alpha == t lands there) and the opaque background
   *  otherwise; anything else is kept. */
  function RemapPixel(p: Rgba, t: int, pal: Palette): Rgba
  {
    if NearWhite(p, t) then pal.text
    else if NearBlack(p, t) then (if p.a <= t then pal.backgroundEmpty else pal.background)
    else p
  }

  /** `set_black__white_to_off_black_white(image, dark_mode, threshold)`: on a
   *  copy, the first pass writes the opaque near-black and near-white pixels,
   *  the second the transparent ones; every mask is taken from the input
   *  image, so the second pass does not see the first pass's writes. */
  method TwoPassRemap(image: array2<Rgba>, darkMode: bool, threshold: int) returns (result: array2<Rgba>)
    ensures SameShape(result, image)
    ensures forall y, x :: 0 <= y < image.Length0 && 0 <= x < image.Length1 ==>
      result[y, x] == RemapPixel(image[y, x], threshold, PaletteFor(darkMode))
  {
    var colors := PaletteFor(darkMode);
    result := CopyImage(image);
    FillWhere(result, image, p => OpaqueBlack(p, threshold), colors.background);
    FillWhere(result, image, p => OpaqueWhite(p, threshold), colors.text);
    FillWhere(result, image, p => ClearBlack(p, threshold), colors.backgroundEmpty);
    FillWhere(result, image, p => ClearWhite(p, threshold), colors.text);
  }

  /** For thresholds in [12, 225) (the default is 25) remapping an already
   *  remapped pixel changes nothing: the palette colours are fixed points. */
  lemma RemapIdempotent(p: Rgba, t: int, dark: bool)
    requires 12 <= t < 225
    ensures RemapPixel(RemapPixel(p, t, PaletteFor(dark)), t, PaletteFor(dark)) == RemapPixel(p, t, PaletteFor(dark))
  {
  }

  /** The remap reads the alpha channel only to choose between the two
   *  backgrounds: two pixels that differ only in alpha get the same text
   *  colour, or are both kept. */
  lemma RemapAlphaRole(p: Rgba, q: Rgba, t: int, pal: Palette)
    requires p.r == q.r && p.g == q.g && p.b == q.b
    ensures NearWhite(p, t) ==> RemapPixel(p, t, pal) == RemapPixel(q, t, pal) == pal.text
    ensures NearBlack(p, t) && !NearWhite(p, t) ==>
      RemapPixel(p, t, pal) in {pal.background, pal.backgroundEmpty}
    ensures !NearWhite(p, t) && !NearBlack(p, t) ==> RemapPixel(p, t, pal) == p && RemapPixel(q, t, pal) == q
  {
  }

  // ---------------------------------------------------------------------------
  // process_frame

  /** The foreground mask: any opacity in dark mode, any colour channel below
   *  255 otherwise.  It is taken from the frame before the remap. */
  predicate DarkPattern(p: Rgba) { p.a > 0 }
  predicate LightPattern(p: Rgba) { AnyAtMost(p, 254) }

  function PatternMask(dark: bool): Rgba -> bool
  {
    if dark then DarkPattern else LightPattern
  }

  const RemapThreshold := 25

  /** `process_frame` up to the crop, for an RGBA frame: the remapped pixels,
   *  and the crop of the mask bounds; there is no fallback, so an empty mask
   *  makes `np.where(rows)[0][[0, -1]]` fail, and a crop of height 0 (pattern
   *  size 0) makes `maintain_aspect_ratio` divide by zero. */
  method ProcessFrame(input: array2<Rgba>, darkMode: bool) returns (remapped: array2<Rgba>, crop: Result<Rect>)
    ensures SameShape(remapped, input)
    ensures forall y, x :: 0 <= y < input.Length0 && 0 <= x < input.Length1 ==>
      remapped[y, x] == RemapPixel(input[y, x], RemapThreshold, PaletteFor(darkMode))
    ensures !HasForeground(input, PatternMask(darkMode)) ==> crop == Err("IndexError")
    ensures HasForeground(input, PatternMask(darkMode)) ==>
      (crop.Err? <==> PatternSize(MaskBounds(input, PatternMask(darkMode)).value, input.Length1, input.Length0) == 0)
    ensures HasForeground(input, PatternMask(darkMode)) && crop.Err? ==> crop.error == "ZeroDivisionError"
    ensures crop.Ok? ==> GoodCrop(MaskBounds(input, PatternMask(darkMode)).value, input.Length1, input.Length0, crop.value)
  {
    var bounds := MaskBounds(input, PatternMask(darkMode));
    remapped := TwoPassRemap(input, darkMode, RemapThreshold);
    if bounds.None? {
      crop := Err("IndexError");
    } else {
      var r := SquareCrop(bounds.value, input.Length1, input.Length0);
      if Height(r) == 0 {
        crop := Err("ZeroDivisionError");
      } else {
        crop := Ok(r);
      }
    }
  }

  /** The end of `process_frame`: `is_dark_mode` is reset to True before the
   *  composite is built, so the composite (a PIL result, given here) is
   *  remapped with the dark palette whatever mode the frame was read in. */
  method FinishFrame(composite: array2<Rgba>) returns (final: array2<Rgba>)
    ensures SameShape(final, composite)
    ensures forall y, x :: 0 <= y < composite.Length0 && 0 <= x < composite.Length1 ==>
      final[y, x] == RemapPixel(composite[y, x], RemapThreshold, PaletteFor(true))
  {
    var isDarkMode := true;
    final := TwoPassRemap(composite, isDarkMode, RemapThreshold);
  }

  /** `text_offset`: the card renderer's line offset plus a fixed 100. */
  function TextOffset(lineCount: Option<nat>): (off: int)
    ensures 100 <= off <= 200
    ensures lineCount.None? ==> off == 100
  {
    CardRenderer.TextOffset(lineCount) + 100
  }

  /** The paste position of the resized crop (sw x sh) on the target (tw x th):
   *  centred horizontally, and centred vertically then raised by the offset. */
  function PastePosition(tw: int, th: int, sw: int, sh: int, lineCount: Option<nat>): (pos: (int, int))
    ensures 0 <= (tw - sw) - 2 * pos.0 <= 1
    ensures 0 <= (th - sh) - 2 * (pos.1 + TextOffset(lineCount)) <= 1
    ensures th - sh - 400 - 1 <= 2 * pos.1 <= th - sh - 200
  {
    ((tw - sw) / 2, (th - sh) / 2 - TextOffset(lineCount))
  }

  // ---------------------------------------------------------------------------
  // render_card_title

  /** The string whose bbox bottom is taken as the baseline. */
  const Capitals := "ABCDEFHIJKLMNOPRSTUVWXYZ"

  /** `int(base_size * 1.15)` for a non-negative base size. */
  function TitleSize(baseSize: nat): int
  {
    baseSize * 115 / 100
  }

  /** Where and how large `render_card_title` draws a title: the size search is
   *  disabled, so the size is always int(1.15 base); x follows the alignment;
   *  the title's top is placed so that the bottom of the capitals sits on y. */
  function TitlePlacement(m: Metrics, name: string, x: real, y: real, baseSize: nat, alignment: string)
    : (t: (int, real, real))
    ensures t.0 == TitleSize(baseSize)
    ensures t.2 + m.bottom(Capitals, t.0) as real == y
  {
    var size := TitleSize(baseSize);
    var baselineHeight := m.bottom(Capitals, size);
    var textWidth := m.width(name, size);
    (size, LineX(AlignmentOf(alignment), x, textWidth as real), y - baselineHeight as real)
  }

  /** The size and the vertical position depend neither on the title nor on
   *  the width limit; the horizontal position follows the alignment. */
  lemma TitlePlacementIndependent(m: Metrics, a: string, b: string, x: real, y: real, baseSize: nat, alignment: string)
    ensures TitlePlacement(m, a, x, y, baseSize, alignment).0 == TitlePlacement(m, b, x, y, baseSize, alignment).0
    ensures TitlePlacement(m, a, x, y, baseSize, alignment).2 == TitlePlacement(m, b, x, y, baseSize, alignment).2
    ensures alignment == "left" ==> TitlePlacement(m, a, x, y, baseSize, alignment).1 == x
    ensures alignment == "right" ==>
      TitlePlacement(m, a, x, y, baseSize, alignment).1 + m.width(a, TitleSize(baseSize)) as real == x
  {
  }

  /** For the side titles the size is 152. */
  lemma SideTitleSize()
    ensures TitleSize(SideTitleBase) == 152
  {
  }

  // ---------------------------------------------------------------------------
  // draw_semibold_text

  /** The offsets `draw_semibold_text` uses at a given strength. */
  predicate IsSemiboldOffset(o: (int, int), strength: int)
  {
    || o == (0, 0)
    || (strength >= 1 && Abs(o.0) + Abs(o.1) == 1)
    || (strength >= 2 && Abs(o.0) == 1 && Abs(o.1) == 1)
    || (strength >= 3 && ((Abs(o.0) == 2 && o.1 == 0) || (o.0 == 0 && Abs(o.1) == 2)))
  }

  /** The offset list: it starts at (0, 0); strength 1 adds the four axis
   *  neighbours, 2 the four diagonals, 3 the four axis points at distance 2;
   *  no offset repeats. */
  method SemiboldOffsets(strength: int) returns (offsets: seq<(int, int)>)
    ensures |offsets| == 1 + 4 * Min(Max(strength, 0), 3)
    ensures offsets[0] == (0, 0)
    ensures Distinct(offsets)
    ensures forall o :: o in offsets <==> IsSemiboldOffset(o, strength)
  {
    offsets := [(0, 0)];
    if strength >= 1 {
      offsets := offsets + [(1, 0), (-1, 0), (0, 1), (0, -1)];
    }
    if strength >= 2 {
      offsets := offsets + [(1, 1), (-1, -1), (1, -1), (-1, 1)];
    }
    if strength >= 3 {
      offsets := offsets + [(2, 0), (-2, 0), (0, 2), (0, -2)];
    }
    forall o | IsSemiboldOffset(o, strength)
      ensures o in offsets
    {
      SemiboldOffsetCases(o, strength);
    }
  }

  lemma SemiboldOffsetCases(o: (int, int), strength: int)
    requires IsSemiboldOffset(o, strength)
    ensures o == (0, 0)
         || (strength >= 1 && o in [(1, 0), (-1, 0), (0, 1), (0, -1)])
         || (strength >= 2 && o in [(1, 1), (-1, -1), (1, -1), (-1, 1)])
         || (strength >= 3 && o in [(2, 0), (-2, 0), (0, 2), (0, -2)])
  {
  }

  /** The drawing loop: the text is drawn once at each offset from (x, y). */
  method SemiboldDraws(x: real, y: real, strength: int) returns (draws: seq<(real, real)>)
    ensures exists offsets: seq<(int, int)> ::
      && |offsets| == |draws|
      && Distinct(offsets)
      && (forall o :: o in offsets <==> IsSemiboldOffset(o, strength))
      && (forall i :: 0 <= i < |draws| ==> draws[i] == (x + offsets[i].0 as real, y + offsets[i].1 as real))
    ensures Distinct(draws)
  {
    var offsets := SemiboldOffsets(strength);
    draws := [];
    var i := 0;
    while i < |offsets|
      invariant 0 <= i <= |offsets|
      invariant |draws| == i
      invariant forall k :: 0 <= k < i ==> draws[k] == (x + offsets[k].0 as real, y + offsets[k].1 as real)
    {
      var (dx, dy) := offsets[i];
      draws := draws + [(x + dx as real, y + dy as real)];
      i := i + 1;
    }
  }

  // ---------------------------------------------------------------------------
  // render_card, render_fate, render_ritual: output name and colour scheme

  /** The card data fields these entry points read; a nested side name is
   *  None when the side or its name is missing. */
  datatype CardData = CardData(cardType: Option<string>, name: Option<string>, challengeName: Option<string>,
                               challengeSideName: Option<string>, bonusSideName: Option<string>)

  /** The output file, the colour scheme, and whether the two-sided ritual
   *  layout (`render_ritual_card`) or the single choice layout is drawn. */
  datatype Target = Target(fileName: string, darkMode: bool, ritualLayout: bool)

  const KeyError := "KeyError"

  function Named(name: Option<string>, darkMode: bool, ritualLayout: bool): Result<Target>
  {
    if name.None? then Err(KeyError) else Ok(Target(CardRenderer.Slug(name.value) + ".png", darkMode, ritualLayout))
  }

  /** `render_card`: a card of type "ritual" is named after its challenge side
   *  and always dark; any other is named after its bonus side and is dark
   *  exactly when "Arcana" is a word of its type. */
  function RenderCardTarget(card: CardData): (r: Result<Target>)
    ensures card.cardType == Some("ritual") ==>
      r == Named(card.challengeSideName, true, true)
    ensures card.cardType != Some("ritual") ==>
      r == Named(card.bonusSideName, CardRenderer.IsDarkMode(card.cardType), false)
    ensures r.Ok? && r.value.ritualLayout ==> r.value.darkMode
  {
    if card.cardType.Some? && card.cardType.value == "ritual" then
      Named(card.challengeSideName, true, true)
    else
      Named(card.bonusSideName, CardRenderer.IsDarkMode(card.cardType), false)
  }

  /** `render_fate`: named after `name`, dark by the "Arcana" rule, choice layout. */
  function RenderFateTarget(card: CardData): (r: Result<Target>)
    ensures r.Ok? ==> !r.value.ritualLayout && r.value.darkMode == CardRenderer.IsDarkMode(card.cardType)
    ensures r.Err? <==> card.name.None?
  {
    Named(card.name, CardRenderer.IsDarkMode(card.cardType), false)
  }

  /** `render_ritual`: named after `challenge_name`, always dark, ritual layout. */
  function RenderRitualTarget(card: CardData): (r: Result<Target>)
    ensures r.Ok? ==> r.value.ritualLayout && r.value.darkMode
    ensures r.Err? <==> card.challengeName.None?
  {
    Named(card.challengeName, true, true)
  }

  /** The file name is the slug of the chosen name followed by ".png": it has
   *  no spaces or upper-case letters before the extension. */
  lemma TargetFileName(name: string, darkMode: bool, ritualLayout: bool)
    ensures Named(Some(name), darkMode, ritualLayout).Ok?
    ensures var f := Named(Some(name), darkMode, ritualLayout).value.fileName;
      |f| == |name| + 4 && f[|name|..] == ".png" &&
      forall i :: 0 <= i < |name| ==> f[i] != ' ' && !IsUpper(f[i])
  {
    CardRenderer.SlugShape(name);
  }
}
