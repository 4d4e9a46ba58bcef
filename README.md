# AzothBot card pipeline, modelled in Dafny

AzothBot is a Discord bot for a trading-card game. It renders cards and
ritual cards to images, generates eigenfunction textures for card art,
stores images in a bucket, keeps decks in a database, and answers
autocomplete and permission checks. This project models the logic at the
centre of that pipeline and proves what the code promises about it.

The modelled parts are:

- the pixel rules of the two renderers: the predominant-colour label, the
  off-black/off-white remaps and the black/white inversion;
- the crop of `process_frame` and the centre-square fallback
  `process_frame_original`;
- the paragraph wrap, the font-size searches, the alignment, the title
  placement and the faux-bold offsets;
- the card-grid layout of `create_card_grid`;
- the texture post-processing of the eigenfunction generator: the
  threshold, the colourisation, the mirroring, the parameter draw and the
  file registry;
- the image-store file names;
- the deck contents and the add/remove rules of the deck helpers;
- the autocomplete filter and the authorised-user-id parser.

## Layout

The modules follow the program's structure.

- `Wrappers`: `Option` and `Result`.
- `Text`: the Python string operations the code relies on. These are
  `str.split()`, `join`, `split(',')`, `strip`, `isdigit`, `int`/`str`,
  ASCII `lower`, `round` and `s[:k]`.
- `Pixels`: RGBA rasters as `array2<Rgba>` and the pixel tests. It holds
  the masked write `result[mask] = colour`, the colour counts, and the
  bounding box of a mask. `get_predominant_color` and `invert_black_white`
  are word for word the same in both renderers, so they are defined here
  once.
- `FrameGeometry`: the integer crop, which is also duplicated in both
  renderers.
- `TextFit`: the greedy wrap (`get_wrapped_lines`), the font-size while
  loop, and the line placement of `draw_wrapped_text`. The ritual
  renderer's wrap differs in one rule, which is a flag.
- `CardRenderer`, `RitualRenderer`: what differs between the two
  renderers.
- `Eigenfunctions`: `RandomEigenfunctionGenerator` minus the numerics.
- `Storage`: `supabase_storage.py` file names.
- `DeckContents`: `supabase_helpers.py`. The database is a `Store` class
  whose sequence fields are the tables. `add_to_deck` and
  `remove_from_deck` are methods on it, each proved equal to a
  specification function on a snapshot of the join tables.
- `Autocomplete`, `AuthorizedIds`: the two command helpers.

Font measurement is a `Metrics` value of arrow-typed fields. These give
the width, right edge and bottom edge of a string's bounding box, and the
line height, at a font size. Floating-point expressions are exact reals.
Python `round` is round-half-even.

## Model

| member | source | states |
|---|---|---|
| Text.LowerChar | azoth_logic/card_renderer.py:493 | `lower()` on one character turns an ASCII capital into its small letter (code + 32) and keeps any other character; the result is never a capital |
| Text.Lower | azoth_commands/autocomplete.py:26 | `lower()` keeps the length and lowers each character in place |
| Text.LowerIdempotent | azoth_commands/autocomplete.py:26 | lowering an already lowered string changes nothing |
| Text.Words | azoth_logic/card_renderer.py:417 | every token of `str.split()` is non-empty and free of whitespace |
| Text.WordsOfJoin | azoth_logic/card_renderer.py:194 | splitting a space-joined list of words gives back exactly those words |
| Text.SplitOn | azoth_commands/helpers.py:11 | `s.split(sep)` gives at least one piece, no piece holds the separator, and joining the pieces with it rebuilds `s` |
| Text.SplitOnJoin | azoth_commands/helpers.py:11 | splitting a join of separator-free pieces gives back the pieces, empty ones included |
| Text.StripLeft | azoth_commands/helpers.py:10 | the result is a suffix of the input; everything removed is droppable; the result does not start with a droppable character |
| Text.StripRight | azoth_commands/helpers.py:10 | the result is a prefix of the input; everything removed is droppable; the result does not end with a droppable character |
| Text.StripBoth | supabase_storage.py:12 | `strip` leaves neither end a droppable character |
| Text.StripBothKeeps | supabase_storage.py:12 | a string whose ends are not droppable is returned unchanged by `strip` |
| Text.NatToDecimal | supabase_helpers.py:174 | `str(n)` is a non-empty all-digit string with no leading zero unless n is 0 |
| Text.IntToDecimal | supabase_helpers.py:174 | `str(v)` is digits for v >= 0, and a minus sign followed by digits for v < 0 |
| Text.DecimalOfNat | azoth_commands/helpers.py:10 | `int(str(n)) == n` |
| Text.RoundHalfEven | azoth_logic/card_renderer.py:35 | `round(n / d)` is within half a step of n / d, and an exact tie goes to the even neighbour |
| Text.PyPrefix | supabase_helpers.py:218 | `s[:k]` is a prefix of `s` of length min(k, \|s\|) for k >= 0, and of \|s\| + k (at least 0) for negative k |
| Pixels.InvertSwapsStrictClasses | azoth_logic/card_renderer.py:157-180 | for thresholds in [14, 241), such as the default 100, inversion turns strictly black pixels strictly white and strictly white ones strictly black |
| Pixels.InvertPureTones | azoth_logic/card_renderer.py:166-180 | inverting twice restores pure black and pure white |
| Pixels.CopyImage | azoth_logic/card_renderer.py:166 | `image.copy()` is a fresh array of the same shape and contents |
| Pixels.InvertBlackWhite | azoth_logic/card_renderer.py:157-180 | every output pixel is the two-mask rule of its input pixel: all channels <= t become pure white, then all channels >= 255 - t become pure black (the later write wins), the rest are kept; the input is not modified |
| Pixels.Count | azoth_logic/card_renderer.py:118-119 | a class count is at most the number of pixels |
| Pixels.CountMono | azoth_logic/card_renderer.py:118-119 | if every pixel of one class sits where another image has a pixel of a second class, the second count is at least the first |
| Pixels.PredominantColor | azoth_logic/card_renderer.py:112-128 | the label is black exactly when strictly black opaque pixels (all channels <= 14) outnumber strictly white ones (all 255), or when the two together number at most 10000 |
| Pixels.StrictCountsBounded | azoth_logic/card_renderer.py:118-119 | no pixel is both strictly black and strictly white, so the two counts add up to at most the pixel count |
| Pixels.PredominantColorThresholds | azoth_logic/card_renderer.py:124-128 | an image of at most 10000 pixels is always labelled black; a white label means more than 5000 strictly white pixels and no fewer than the black ones |
| Pixels.InvertSwapsCounts | azoth_logic/card_renderer.py:196-199 | after inversion the white count is at least the old black count, and the black count at least the old white count |
| Pixels.FirstSet | azoth_logic/card_renderer.py:223-224 | `np.where(s)[0][0]` is the first set index, or None exactly when nothing is set |
| Pixels.LastSet | azoth_logic/card_renderer.py:223-224 | `np.where(s)[0][-1]` is the last set index, or None exactly when nothing is set |
| Pixels.RowMask | azoth_logic/card_renderer.py:216 | `np.any(mask, axis=1)` has one entry per row, set exactly when that row holds a foreground pixel |
| Pixels.ColMask | azoth_logic/card_renderer.py:217 | `np.any(mask, axis=0)` has one entry per column, set exactly when that column holds a foreground pixel |
| Pixels.ProjectionsOfForeground | azoth_logic/card_renderer.py:216-220 | the mask is non-empty exactly when some row (or some column) projection is set, and every foreground pixel lies on a set row and a set column |
| Pixels.MaskBounds | azoth_logic/card_renderer.py:216-224 | the bounds are None exactly when the mask is empty; otherwise they are the first and last foreground row and column, and every foreground pixel lies inside them |
| Pixels.MaskBoundsTransfer | azoth_logic/ritual_renderer.py:336-357 | two same-shape images whose masks agree cell by cell have the same bounds |
| FrameGeometry.SmallPatternPadding | azoth_logic/card_renderer.py:227-235 | for a pattern whose longer extent is under 10 pixels the padding is 0, so the padded box has the last foreground index as its exclusive edge and cuts off that row and column |
| FrameGeometry.SinglePixelPatternEmpty | azoth_logic/card_renderer.py:226-237 | a foreground of one pixel has pattern size 0, so its crop is empty |
| FrameGeometry.CentreSide | azoth_logic/card_renderer.py:238-251 | centring a side of length `size` on a padded interval gives an interval inside the axis that covers the padded one, is no longer than `size`, equals the padded one when that already has length `size`, and is not empty when `size` is positive and the padded interval starts inside the axis |
| FrameGeometry.ReexpandSide | azoth_logic/card_renderer.py:252-267 | re-expanding a clipped interval keeps it inside the axis and covering the padded one; it reaches length `size` exactly when `size` fits the axis, and is not empty |
| FrameGeometry.CropConclusion | azoth_logic/card_renderer.py:227-267 | the per-axis facts add up to the crop guarantee: inside the image, covering the padded box, no side above the pattern size, the longer padded side kept, a square of the pattern size exactly when that size fits both dimensions, and empty exactly when the pattern size is 0 |
| FrameGeometry.SquareCrop | azoth_logic/card_renderer.py:227-267 | the crop computed step by step from the mask bounds has every guarantee above |
| FrameGeometry.CenterSquare | azoth_logic/card_renderer.py:386-409 | the fallback is the square of side min(W, H) inside the image, with left (W - m) div 2 and top (H - m) div 2, centred to within one pixel |
| TextFit.JoinAll | azoth_logic/card_renderer.py:429-436 | each output line is its word group joined by single spaces |
| TextFit.WrapLines | azoth_logic/card_renderer.py:416-436 | the loop over `words`, appending to `lines` and `current_line`, returns the lines of the wrap specification |
| TextFit.GroupsWrap | azoth_logic/ritual_renderer.py:546-571 | the wrap drops, splits and reorders no word; every line is non-empty; a line of two or more words fits the width; a line is closed only because the next word would overflow it, or (ritual variant) because it is an over-long word standing alone |
| TextFit.WrappedLinesSound | azoth_logic/card_renderer.py:416-436 | splitting line i gives back its words, so the words of all lines in order are `text.split()`; a text without words gives no lines, any other at least one; every line of two or more words fits |
| TextFit.CardWrapGreedy | azoth_logic/card_renderer.py:423-431 | without the over-long rule every line is closed only because the next word would not fit on it |
| TextFit.FitFontSize | azoth_logic/card_renderer.py:444-458 | the size is the largest in [12, start] whose wrapped height (lines x 1.2 x line height) fits the box, or 11 when none does; a start below 12 is kept unchanged |
| TextFit.LineX | azoth_logic/ritual_renderer.py:607-621 | the line's left edge is x for 'left'; its right edge is x for 'right'; otherwise its centre is x |
| TextFit.PlaceLines | azoth_logic/card_renderer.py:461-479 | each line is drawn once, in order, at its aligned x, the lines 1.2 line heights apart and the block centred vertically on y |
| TextFit.BlockCentred | azoth_logic/card_renderer.py:438-442 | the line slots tile the block: the first starts half the total height above y and the one after the last starts half below |
| TextFit.DrawWrappedText | azoth_logic/ritual_renderer.py:528-621 | `draw_wrapped_text` picks the size as above, then draws exactly the wrapped lines at that size, in order |
| CardRenderer.ClampPpi | azoth_logic/card_renderer.py:22 | the resolution is clamped into [300, 900] and kept when already inside |
| CardRenderer.NewCardRenderer | azoth_logic/card_renderer.py:17-30 | whatever the ppi, the pixel size is the fixed 2448 x 3330 |
| CardRenderer.FontSizes | azoth_logic/card_renderer.py:35-37 | the font size constants are Python's `round` of the source expressions |
| CardRenderer.OffBlackWhiteImage | azoth_logic/card_renderer.py:132-155 | each output pixel is off-white (225,225,225,255) when all its channels are >= 255 - t, otherwise off-black (12,12,12,255) when all are <= t, otherwise unchanged; alpha is not consulted and the input is not modified |
| CardRenderer.OffBlackWhiteIdempotent | azoth_logic/card_renderer.py:132-155 | the remap is idempotent exactly for thresholds below 243 (so for the default 100) or of at least 255 |
| CardRenderer.ProcessFrame | azoth_logic/card_renderer.py:183-280 | with dark mode forced, the frame is inverted when white predominates and then remapped; it falls back to the centre square exactly when the pattern mask (taken after the inversion, before the remap) is empty; otherwise it fails with ZeroDivisionError exactly when the pattern size is 0, and else the crop has every crop guarantee |
| CardRenderer.TextOffset | azoth_logic/card_renderer.py:310-344 | the offset is 20 per wrapped line, at most 100, and 0 when the card has no text |
| CardRenderer.PastePosition | azoth_logic/card_renderer.py:347-348 | the crop is centred horizontally and vertically, raised by the text offset and lowered by 500 |
| CardRenderer.CardTextLines | azoth_logic/card_renderer.py:318-343 | there is a line count exactly when the card has text, and it is 0 exactly when the text has no words |
| CardRenderer.TitleFontSize | azoth_logic/card_renderer.py:716-739 | the title size is the largest in [82, 163] at which the name fits, or 82 when none does |
| CardRenderer.Slug | azoth_logic/card_renderer.py:493 | the slug keeps the length, turns each space into `_` and lowers every other character |
| CardRenderer.SlugShape | azoth_logic/card_renderer.py:493 | a slug has no spaces and no capitals, and slugging it again changes nothing |
| CardRenderer.DarkModeOfWords | azoth_logic/card_renderer.py:500-501 | dark mode holds exactly when "Arcana" is a whole word of the type; a missing type is light |
| CardRenderer.CeilDivBounds | azoth_logic/card_renderer.py:1042 | the rows are the fewest that hold n cards in `cols` columns |
| CardRenderer.BestGrid | azoth_logic/card_renderer.py:1036-1052 | the column count in 1..n has the grid ratio closest to 16:9, and the smallest such count wins a tie; rows are ceil(n / cols); with no cards the initial 1 column and n rows stand |
| CardRenderer.CardCell | azoth_logic/card_renderer.py:1070-1086 | card i sits in column i mod cols and row i div cols, and that row is one of the grid's rows |
| CardRenderer.CardInsideGrid | azoth_logic/card_renderer.py:1059-1086 | every shown card lies inside the grid image, within the 50-pixel outer padding |
| CardRenderer.CardsDisjoint | azoth_logic/card_renderer.py:1070-1086 | two different cards never overlap: they are a card width plus 20 apart horizontally, or a card height plus 20 vertically |
| CardRenderer.PlaceCards | azoth_logic/card_renderer.py:1070-1086 | the placement loop stops at the n-th image and puts image i at its grid position |
| CardRenderer.FinalSize | azoth_logic/card_renderer.py:1089-1093 | a grid at most 1920 wide keeps its size; a wider one becomes exactly 1920 wide, with the height scaled by the same factor and truncated |
| CardRenderer.CardsShown | azoth_logic/card_renderer.py:1000-1003 | `num_cards` defaults to, and is capped at, the number of cards given |
| CardRenderer.Loaded | azoth_logic/card_renderer.py:1006-1021 | the loaded images are no more than the cards |
| CardRenderer.CreateCardGrid | azoth_logic/card_renderer.py:989-1098 | with no loadable card it fails with the ValueError; otherwise the grid is the best one for `num_cards` and the first image's size, each loaded image up to the n-th sits at its position, and the final size follows the 1920 rule |
| RitualRenderer.NewRitualRenderer | azoth_logic/ritual_renderer.py:17-30 | the resolution is clamped into [300, 900], but the pixel size is always the fixed 3330 x 2448 |
| RitualRenderer.FontSizes | azoth_logic/ritual_renderer.py:35-38 | the text, side-text and side-title font sizes are Python's rounding and truncation of the source expressions |
| RitualRenderer.PaletteFor | azoth_logic/ritual_renderer.py:46-61 | both palettes have background (12,12,12,255) and transparent background (12,12,12,0); the text is (255,255,255,255) in dark mode and (225,225,225,255) in light mode; only the dark palette has `darktext` |
| RitualRenderer.TwoPassRemap | azoth_logic/ritual_renderer.py:89-148 | every mask is taken from the input: a near-white pixel (any channel >= 255 - t) becomes the text colour whatever its alpha; a near-black one (any channel <= t) becomes the transparent background when alpha <= t and the opaque background otherwise; the rest are kept |
| RitualRenderer.RemapIdempotent | azoth_logic/ritual_renderer.py:89-148 | for thresholds in [12, 225), including the default 25, remapping a remapped pixel changes nothing |
| RitualRenderer.RemapAlphaRole | azoth_logic/ritual_renderer.py:98-146 | alpha only chooses between the two backgrounds: pixels that differ only in alpha both become the text colour, or are both kept |
| RitualRenderer.ProcessFrame | azoth_logic/ritual_renderer.py:326-416 | the mask (alpha > 0 in dark mode, any channel below 255 in light mode) is taken before the remap; an empty mask fails with IndexError and there is no fallback; otherwise it fails with ZeroDivisionError exactly when the pattern size is 0, and else the crop has every crop guarantee |
| RitualRenderer.FinishFrame | azoth_logic/ritual_renderer.py:499-516 | the composite is remapped pixel by pixel with the dark palette, whatever mode the frame was read in |
| RitualRenderer.TextOffset | azoth_logic/ritual_renderer.py:445-481 | the offset is the card renderer's line offset plus 100, always in [100, 200] |
| RitualRenderer.PastePosition | azoth_logic/ritual_renderer.py:484-485 | the crop is centred horizontally, and centred vertically then raised by the offset |
| RitualRenderer.TitlePlacement | azoth_logic/ritual_renderer.py:701-757 | the title size is always int(1.15 x base); x follows the alignment; the top is placed so that the bottom of the capitals string sits on y |
| RitualRenderer.TitlePlacementIndependent | azoth_logic/ritual_renderer.py:732-754 | the size and the vertical position depend neither on the title text nor on the width limit |
| RitualRenderer.SideTitleSize | azoth_logic/ritual_renderer.py:630 | the side titles are drawn at size 152 |
| RitualRenderer.SemiboldOffsets | azoth_logic/ritual_renderer.py:772-780 | the offsets start at (0, 0); strength 1 adds the four axis neighbours, 2 the diagonals, 3 the axis points at distance 2; there are 1 + 4 min(max(strength, 0), 3) of them, all distinct |
| RitualRenderer.SemiboldDraws | azoth_logic/ritual_renderer.py:782-783 | the text is drawn once per offset, at distinct positions |
| RitualRenderer.RenderCardTarget | azoth_logic/ritual_renderer.py:1386-1400 | a "ritual" card is named after its challenge side and always dark; any other after its bonus side, dark exactly when "Arcana" is a word of its type |
| RitualRenderer.RenderFateTarget | azoth_logic/ritual_renderer.py:1445-1450 | a fate is named after `name`, dark by the "Arcana" rule, with the choice layout; it fails exactly when `name` is missing |
| RitualRenderer.RenderRitualTarget | azoth_logic/ritual_renderer.py:1494-1499 | a ritual is named after `challenge_name`, always dark, with the ritual layout |
| RitualRenderer.TargetFileName | azoth_logic/ritual_renderer.py:1386-1400 | the file name is the slug followed by ".png", with no spaces or capitals before the extension |
| Eigenfunctions.ElementColoursOpaque | azoth_logic/eigenfunction_generator.py:21-31 | every element colour is opaque, so none is the background |
| Eigenfunctions.PatternBand | azoth_logic/eigenfunction_generator.py:113-115 | a cell is in the pattern exactly when it lies in the domain and its value is in [-0.15, 0.15] |
| Eigenfunctions.ColourOfField | azoth_logic/eigenfunction_generator.py:114-135 | a cell shows the element colour exactly when it lies in the domain and the field there is outside [-0.15, 0.15]; every other cell is the background |
| Eigenfunctions.ApplyColors | azoth_logic/eigenfunction_generator.py:119-137 | an unknown element raises ValueError with the source message; otherwise a fresh H x W image is the background in the pattern or outside the domain, and the element colour elsewhere |
| Eigenfunctions.Reverse | azoth_logic/eigenfunction_generator.py:146-147 | `np.fliplr` on a row reverses it |
| Eigenfunctions.Mirror | azoth_logic/eigenfunction_generator.py:139-152 | the output has the same height and width 2 (W div 2); every row is symmetric about the centre line and agrees with the input on the left half |
| Eigenfunctions.MirrorIdempotent | azoth_logic/eigenfunction_generator.py:139-152 | mirroring a mirrored image changes nothing |
| Eigenfunctions.DrawParameters | azoth_logic/eigenfunction_generator.py:170-176 | any draw returned has 2 to 4 distinct indices below half the eigenvalue count and amplitudes in [-1, 1); it fails exactly with numpy's sample error, always when the population is below 2 and never when it is at least 4 |
| Eigenfunctions.Texture | azoth_logic/eigenfunction_generator.py:179-190 | the unmirrored texture has the interpolation grid's height and width |
| Eigenfunctions.GenerateRandomImage | azoth_logic/eigenfunction_generator.py:154-220 | on success the record holds a registered base file, the element, and exactly the draw the image was built from, and the image is the mirrored texture of that draw; it fails only with the sample error or the unknown-element error, always for an unknown element, and never for a known one when every base has at least 8 eigenvalues |
| Eigenfunctions.BaseName | azoth_logic/eigenfunction_generator.py:37 | the base name followed by the suffix gives back the file name |
| Eigenfunctions.RegistryAsWrittenAdmitsMissingFile | azoth_logic/eigenfunction_generator.py:35-41 | as written, a listed name holding the suffix twice registers a base whose eigenfunctions file is not listed |
| Eigenfunctions.RegistryComplete | azoth_logic/eigenfunction_generator.py:34-41 | a base name is registered exactly when its eigenfunctions, eigenvalues and solver-data files are all listed |
| Eigenfunctions.RegistriesAgree | azoth_logic/eigenfunction_generator.py:35-41 | when `replace` removes nothing but the trailing suffix of each scanned name, the registry as written and the corrected one are equal |
| Eigenfunctions.LoadRegistry | azoth_logic/eigenfunction_generator.py:34-44 | the scan, with the corrected base name of the Findings row, returns the corrected registry, and fails with FileNotFoundError exactly when it is empty |
| Eigenfunctions.RegistryNonEmpty | azoth_logic/eigenfunction_generator.py:34-44 | once some complete triple of files is listed, the registry is not empty |
| Storage.SubNonWord | supabase_storage.py:12 | `re.sub(r'\W+', '_', s)` leaves only word characters and is no longer than `s` |
| Storage.SubNonWordAlnums | supabase_storage.py:12 | the substitution keeps the letters and digits of `s`, in order |
| Storage.SubNonWordNoUpper | supabase_storage.py:12 | the substitution adds no capital to a string without one |
| Storage.SubNonWordOfWordChars | supabase_storage.py:12 | a string of word characters is left as it is |
| Storage.StripUnderscores | supabase_storage.py:12 | stripping underscores keeps the letters and digits and adds no character |
| Storage.SafeNameShape | supabase_storage.py:11-13 | the stem holds only lower-case word characters, neither starts nor ends with `_`, and keeps the letters and digits of the lowered name in order |
| Storage.SafeNameIdempotent | supabase_storage.py:12 | sanitising a stem again returns it unchanged |
| Storage.VersionedNamesDistinct | supabase_storage.py:6-8 | different versions of a name get different file names, each the stem, `_`, the version and ".png" |
| Storage.UploadImage | supabase_storage.py:38-58 | success holds exactly when the store answered with no status of 400 or more, and then the stored name is the local file name; an exception reports its message |
| Storage.RFind | supabase_storage.py:22 | `rfind` is the last index of the character, or -1 exactly when it is absent |
| Storage.RemoveExtension | supabase_storage.py:22 | `splitext(p)[0]` is a prefix of `p`, either all of it or followed by the dot that starts the extension |
| Storage.DownloadImage | supabase_storage.py:16-35 | success holds exactly when the download did not fail, and the local path is the directory joined with the local name of the name without its extension |
| Storage.RemovePng | supabase_storage.py:22 | a stem of word characters not starting with a dot loses exactly its ".png" extension |
| Storage.DownloadOfUpload | supabase_storage.py:22-24 | downloading an uploaded image keeps the name it was uploaded under |
| DeckContents.WithIds | supabase_helpers.py:89 | the id query returns, in table order, exactly the records whose id is listed |
| DeckContents.WithField | supabase_helpers.py:164 | the equality query returns, in table order, exactly the records with that field value |
| DeckContents.OfDeck | supabase_helpers.py:82 | the deck query returns, in table order, exactly the join rows of the deck |
| DeckContents.Copies | supabase_helpers.py:213 | the copy query returns, in table order, exactly the deck's rows for that item and type |
| DeckContents.WithoutIds | supabase_helpers.py:219-220 | deleting a set of ids keeps, in order, exactly the rows whose id is not in it |
| DeckContents.Found | supabase_helpers.py:98-105 | the rows whose item was fetched, in join-row order |
| DeckContents.EntriesOfFound | supabase_helpers.py:96-105 | the result has one entry per fetched join row, in join-row order, built from that row's record; other rows are skipped |
| DeckContents.EntriesAllFound | supabase_helpers.py:136-149 | when every item was fetched there is one entry per join row, and in full mode entry i is row i's record tagged with its item type |
| DeckContents.IdMap | supabase_helpers.py:93 | every record's id is a key, every value is one of the records, and a later record with the same id replaces an earlier one |
| DeckContents.DeckContents | supabase_helpers.py:75-154 | a deck with no join rows gives an empty success; a card deck whose cards cannot be fetched fails with "Failed to fetch card data."; any other content type fails with "Unsupported content type: ..." |
| DeckContents.CardContentsShape | supabase_helpers.py:80-107 | a card result has at most one entry per join row, in join-row order, each from its row's record, each tagged "card" in full mode |
| DeckContents.FateContentsShape | supabase_helpers.py:109-151 | a fate result has at most one entry per join row, in join-row order, each from the record found for its row, tagged with its row's fate type in full mode |
| DeckContents.GroupMembers | supabase_helpers.py:116-121 | a fate id is in a type's group exactly when a join row of that type carries it |
| DeckContents.GroupsDropOthers | supabase_helpers.py:116-121 | every row of the three fate types lands in exactly one group, and rows of any other type are dropped |
| DeckContents.FateIdsShareOneMap | supabase_helpers.py:124-149 | a ritual and an event with the same id collide in the shared map: the event replaces the ritual, whose row then shows no name |
| DeckContents.NewRows | supabase_helpers.py:171-172 | the n new rows carry consecutive ids from the next id on |
| DeckContents.FirstFate | supabase_helpers.py:178-194 | the search returns nothing exactly when no fate table has a record with that title |
| DeckContents.FirstFateIs | supabase_helpers.py:178-194 | when the i-th type is the first, in the order ritual, event, consumable, whose table has a record with that title, the search returns that type and its first such record |
| DeckContents.AddSpec | supabase_helpers.py:157-197 | adding succeeds exactly when the card (or some fate) is found, and then reports the quantity as given; a failure changes no table |
| DeckContents.RemoveFate | supabase_helpers.py:224-248 | the first fate table with the title decides, even when the deck holds no copy of it; a title in no fate table fails with "❌ No fate found named '<item>'." and changes nothing; the card join table and the id counters are untouched |
| DeckContents.RemoveSpec | supabase_helpers.py:200-251 | removing a card succeeds exactly when it is found and the deck holds a copy; an unknown card, a title in no fate table and an unsupported deck each fail with their message; a failure changes no table |
| DeckContents.AddCounts | supabase_helpers.py:171-172 | adding creates exactly max(quantity, 0) copies of the item in the deck, keeps the old rows, and keeps the ids distinct |
| DeckContents.RemoveCounts | supabase_helpers.py:213-222 | removing deletes `join_rows[:quantity]`: the first min(quantity, n) copies for quantity >= 0; the remaining copies are exactly the later ones; the reported count is the number deleted; other rows stay; ids stay distinct |
| DeckContents.AddThenRemoveCard | supabase_helpers.py:157-222 | adding q >= 1 copies of a card and removing q again both succeed, report q, and restore the deck's copy count |
| DeckContents.Store.constructor | supabase_helpers.py:10-26 | a database with the given item tables and empty join tables |
| DeckContents.Store.CreateJoinRow | supabase_helpers.py:29-35 | `create_record` appends one row with the next id and touches nothing else |
| DeckContents.Store.DeleteJoinRow | supabase_helpers.py:50-56 | `delete_record` removes the rows with that id and touches nothing else |
| DeckContents.Store.CreateCopies | supabase_helpers.py:171-172 | the `range(quantity)` loop appends max(quantity, 0) new rows for the item |
| DeckContents.Store.DeleteRows | supabase_helpers.py:219-220 | the deletion loop removes exactly the ids of the rows to delete |
| DeckContents.Store.AddToDeck | supabase_helpers.py:157-197 | the new join tables, the flag and the message are those of the add specification, and the table invariant is kept |
| DeckContents.Store.FindFate | supabase_helpers.py:178-181 | the search loop over the fate tables returns the first titled record by type order |
| DeckContents.Store.RemoveFromDeck | supabase_helpers.py:200-251 | the new join tables, the flag and the message are those of the remove specification, and the table invariant is kept |
| DeckContents.Store.GetDeckContents | supabase_helpers.py:75-154 | the result is that of the contents specification, and no table changes |
| DeckContents.GroupFates | supabase_helpers.py:116-121 | the grouping loop gives the three groups of the specification |
| DeckContents.BuildEntries | supabase_helpers.py:96-105 | the result loops build the entries of the specification |
| Autocomplete.FilterSound | azoth_commands/autocomplete.py:26 | the result is a subsequence of the options holding each option that contains the input case-insensitively as often as it occurs, and no other option; this fixes the result |
| Autocomplete.FilterCounts | azoth_commands/autocomplete.py:26 | each matching option occurs in the result as often as in the options, and a non-matching one not at all |
| Autocomplete.FilterEmptyInput | azoth_commands/autocomplete.py:26 | the empty input returns every option |
| Autocomplete.FilterIgnoresCase | azoth_commands/autocomplete.py:26 | the result does not depend on the case of the input |
| Autocomplete.AutocompleteFromChoices | azoth_commands/autocomplete.py:20-26 | an unknown field gives no suggestions; a known field gives, in order, each of its choices that match the input as often as it is listed and no other choice, all of them for the empty input |
| AuthorizedIds.NoVariableNoIds | azoth_commands/helpers.py:11 | an unset or empty variable authorises nobody |
| AuthorizedIds.RejectedTokenIgnored | azoth_commands/helpers.py:12 | a token that strips to nothing, or holds a sign, a letter or inner space, adds no id |
| AuthorizedIds.LeadingZeroIgnored | azoth_commands/helpers.py:10 | a leading zero does not change the id: "007" and "7" are the same user |
| AuthorizedIds.PaddingIgnored | azoth_commands/helpers.py:10-12 | stripping a digit token padded with whitespace gives back the bare token, so it is accepted with the same value |
| AuthorizedIds.Decimals | azoth_commands/helpers.py:10 | each id is written as its decimal string |
| AuthorizedIds.ParseOfJoin | azoth_commands/helpers.py:9-13 | writing ids in decimal, comma-separated, authorises exactly those ids, duplicates collapsing |

## Left out

- Image I/O and PIL: opening and saving, GIF frames, resizing, rotation, mask rasterisation, compositing and icon pasting are library calls. Only the integer geometry that feeds them is modelled.
- Frames are RGBA arrays. The conversion of other image modes is not modelled.
- Font loading and glyph measurement: `Metrics` supplies widths, edges and line heights.
- Floating point: the floats are exact reals. `int(base_size * 1.15)` is taken as the truncation of the exact product. The grid resize `int(total_height * 1920 / total_width)` is exact rational truncation. The millimetre-based width and height are overwritten by the fixed sizes and are not modelled.
- The aspect ratio and percentages returned by `get_predominant_color` are floats; only the label is modelled.
- The ritual renderer's `process_frame` computes the predominant colour and never uses it. The model leaves that call out.
- Text: `lower()`, `\w`, `isdigit()` and `isspace()` are modelled on ASCII and the usual whitespace characters. Unicode case mapping and Unicode digits are not.
- Randomness and the clock: the random draws are a nondeterministic choice, and the timestamps are parameters.
- Eigenfunctions.Texture: the eigenfunction loading, amplitude summation, normalisation and cubic interpolation are numerics over numpy and matplotlib. A `Dataset` value supplies their outcome, so this contract states only the grid's shape.
- Eigenfunctions.DrawParameters: numpy's sampling error is reduced to a fixed message, and the case of 2 or 3 distinct indices with a population of 2 or 3 is left to the nondeterministic choice.
- The network, the database and the file system: the image store's answer and the download outcome are parameters; saving the generated texture is left out.
- DeckContents: a query is taken to return rows in stored table order. A failing query, insert or delete (which the source logs and swallows) is not modelled. Record fields other than text are not modelled.
- DeckContents.Store.CreateJoinRow: row ids are consecutive counter values. The database's own id scheme is not modelled.
- CardRenderer.Loaded: which card images load is a parameter, so this contract states only that no more images than cards load.
- RitualRenderer.FinishFrame: the resized crop, the rounded-corner mask and the alpha composite are PIL results, so the composite it remaps is a parameter.
- CardRenderer.ProcessFrame: its ZeroDivisionError is returned as an error value; the `except` of `render_card` (card_renderer.py:545) that prints it and draws no frame belongs to the image loading, which is left out. A frame with no pixels at all falls back to an empty centre square, and what PIL's `thumbnail` does with it is not modelled.
- Database rows whose text or type column is present but NULL: Python gets `None` and raises AttributeError on `.split()` or `.lower()` (card_renderer.py:312-319 and :500, ritual_renderer.py:1396 and :1446). The model's optional fields cannot tell a NULL apart from a missing key, so it treats a NULL as missing.
- The speech-bubble and view icons, the side labels, `create_sample_hand` and `create_tiled_image` are trigonometric, square-root or pure drawing code.
- `azoth_logic/image_generator.py`, the other command modules, `safe_interaction`, `bot.py`, `constants.py` and `supabase_client.py` are not part of this model.

## Findings

| source | as written | input that shows it | evidently intended | confidence | as-written member | corrected member |
|---|---|---|---|---|---|---|
| azoth_logic/eigenfunction_generator.py:37-41 | the base name is `file.replace("_eigenfunctions.npy", "")`, which removes every occurrence of the suffix; only the eigenvalues and solver-data files of that base are then checked | a listing holding "x_eigenfunctions.npy_eigenfunctions.npy", "x_eigenvalues.npy" and "x_solver_data.npz" registers "x", whose "x_eigenfunctions.npy" is not listed | remove only the trailing suffix, so that each registered base has all three files | medium; not executed | Eigenfunctions.RegistryAsWrittenAdmitsMissingFile | Eigenfunctions.RegistryComplete |
