/** Paragraph layout shared by both renderers' `draw_wrapped_text`: greedy
 *  word wrap, the descending font-size search and the line placement.  Glyph
 *  measurement is abstract: a `Metrics` value gives, for a string at a font
 *  size, the width `bbox[2] - bbox[0]`, the right edge `bbox[2]` and the
 *  bottom edge `bbox[3]` of its bounding box, and the height of the bbox of
 *  the sample string "Ay". */
module TextFit {
  import opened Text

  datatype Metrics = Metrics(width: (string, int) -> int, right: (string, int) -> int,
                            bottom: (string, int) -> int, lineHeight: int -> int)

  /** One call of `get_wrapped_lines`: the font (metrics at `size`), the box
   *  width, and whether a word that opens a line and overflows the box is
   *  emitted on a line of its own (the ritual renderer's variant). */
  datatype Wrapper = Wrapper(m: Metrics, size: int, maxWidth: real, splitLong: bool)

  /** The words `ws`, joined by spaces, fit the box. */
  predicate Fits(wr: Wrapper, ws: seq<string>)
  {
    wr.m.width(JoinSpace(ws), wr.size) as real <= wr.maxWidth
  }

  /** The ritual renderer's over-long word test, made at the start of a line. */
  predicate TooLong(wr: Wrapper, word: string)
  {
    wr.splitLong && wr.m.right(word, wr.size) as real > wr.maxWidth
  }

  // ---------------------------------------------------------------------------
  // Specification of the wrap, as a fold over the words

  /** The finished lines so far, each as its list of words, and `current_line`. */
  datatype WrapState = WrapState(groups: seq<seq<string>>, current: seq<string>)

  /** One iteration of the `for word in words` loop. */
  function Step(wr: Wrapper, st: WrapState, word: string): WrapState
  {
    if st.current == [] && TooLong(wr, word) then
      WrapState(st.groups + [[word]], [])
    else if Fits(wr, st.current + [word]) then
      WrapState(st.groups, st.current + [word])
    else
      WrapState(if st.current != [] then st.groups + [st.current] else st.groups, [word])
  }

  function Fold(wr: Wrapper, st: WrapState, words: seq<string>): WrapState
    decreases |words|
  {
    if words == [] then st else Fold(wr, Step(wr, st, words[0]), words[1..])
  }

  /** The final `if current_line: lines.append(...)`. */
  function Finish(st: WrapState): seq<seq<string>>
  {
    if st.current != [] then st.groups + [st.current] else st.groups
  }

  /** The lines of the wrap, each as its list of words. */
  function Groups(wr: Wrapper, words: seq<string>): seq<seq<string>>
  {
    Finish(Fold(wr, WrapState([], []), words))
  }

  function JoinAll(gs: seq<seq<string>>): (ls: seq<string>)
    ensures |ls| == |gs|
    ensures forall i :: 0 <= i < |gs| ==> ls[i] == JoinSpace(gs[i])
  {
    seq(|gs|, i requires 0 <= i < |gs| => JoinSpace(gs[i]))
  }

  /** `get_wrapped_lines(text, font, max_width)`. */
  function WrappedLines(wr: Wrapper, text: string): seq<string>
  {
    JoinAll(Groups(wr, Words(text)))
  }

  // ---------------------------------------------------------------------------
  // The wrap loop

  lemma JoinAllAppend(gs: seq<seq<string>>, g: seq<string>)
    ensures JoinAll(gs + [g]) == JoinAll(gs) + [JoinSpace(g)]
  {
  }

  /** `get_wrapped_lines` as the source runs it, appending to `lines` and
   *  `current_line` word by word. */
  method WrapLines(wr: Wrapper, text: string) returns (lines: seq<string>)
    ensures lines == WrappedLines(wr, text)
  {
    var words := Words(text);
    lines := [];
    var currentLine: seq<string> := [];
    ghost var groups: seq<seq<string>> := [];
    var i := 0;
    while i < |words|
      invariant 0 <= i <= |words|
      invariant lines == JoinAll(groups)
      invariant Fold(wr, WrapState(groups, currentLine), words[i..]) == Fold(wr, WrapState([], []), words)
    {
      var word := words[i];
      assert words[i..][1..] == words[i + 1..];
      if currentLine == [] && wr.splitLong && wr.m.right(word, wr.size) as real > wr.maxWidth {
        JoinAllAppend(groups, [word]);
        lines := lines + [word];
        groups := groups + [[word]];
      } else {
        var testLine := JoinSpace(currentLine + [word]);
        var width := wr.m.width(testLine, wr.size);
        if width as real <= wr.maxWidth {
          currentLine := currentLine + [word];
        } else {
          if currentLine != [] {
            JoinAllAppend(groups, currentLine);
            lines := lines + [JoinSpace(currentLine)];
            groups := groups + [currentLine];
          }
          currentLine := [word];
        }
      }
      i := i + 1;
    }
    if currentLine != [] {
      JoinAllAppend(groups, currentLine);
      lines := lines + [JoinSpace(currentLine)];
      groups := groups + [currentLine];
    }
  }

  // ---------------------------------------------------------------------------
  // What the wrap guarantees

  /** Line `g` was closed correctly before the word `next`: adding `next` would
   *  overflow the box, or `g` is an over-long word on a line of its own. */
  predicate ClosedBefore(wr: Wrapper, g: seq<string>, next: string)
  {
    !Fits(wr, g + [next]) || (|g| == 1 && TooLong(wr, g[0]))
  }

  predicate WellWrapped(wr: Wrapper, gs: seq<seq<string>>)
  {
    && (forall i :: 0 <= i < |gs| ==> gs[i] != [])
    && (forall i :: 0 <= i < |gs| ==> |gs[i]| >= 2 ==> Fits(wr, gs[i]))
    && (forall i :: 0 <= i < |gs| - 1 ==> ClosedBefore(wr, gs[i], gs[i + 1][0]))
  }

  /** The loop invariant of the wrap after the words `done`. */
  predicate StateInv(wr: Wrapper, st: WrapState, done: seq<string>)
  {
    && Flatten(st.groups) + st.current == done
    && WellWrapped(wr, st.groups)
    && (|st.current| >= 2 ==> Fits(wr, st.current))
    && (st.groups != [] && st.current != [] ==> ClosedBefore(wr, st.groups[|st.groups| - 1], st.current[0]))
    && (st.groups != [] && st.current == [] ==>
          |st.groups[|st.groups| - 1]| == 1 && TooLong(wr, st.groups[|st.groups| - 1][0]))
  }

  lemma StepInv(wr: Wrapper, st: WrapState, done: seq<string>, word: string)
    requires StateInv(wr, st, done)
    ensures StateInv(wr, Step(wr, st, word), done + [word])
  {
    var st' := Step(wr, st, word);
    FlattenAppend(st.groups, st.current);
    FlattenAppend(st.groups, [word]);
    if st.current == [] && TooLong(wr, word) {
      WellWrappedAppend(wr, st.groups, [word]);
      assert Flatten(st'.groups) == Flatten(st.groups) + [word];
    } else if Fits(wr, st.current + [word]) {
      assert Flatten(st'.groups) + st'.current == Flatten(st.groups) + st.current + [word];
    } else if st.current != [] {
      WellWrappedAppend(wr, st.groups, st.current);
      assert Flatten(st'.groups) + st'.current == Flatten(st.groups) + st.current + [word];
    } else {
      assert Flatten(st'.groups) + st'.current == Flatten(st.groups) + [word];
    }
  }

  /** Closing a correct line keeps the finished lines well wrapped. */
  lemma WellWrappedAppend(wr: Wrapper, gs: seq<seq<string>>, g: seq<string>)
    requires WellWrapped(wr, gs) && g != [] && (|g| >= 2 ==> Fits(wr, g))
    requires gs != [] ==> ClosedBefore(wr, gs[|gs| - 1], g[0])
    ensures WellWrapped(wr, gs + [g])
  {
    var gs' := gs + [g];
    assert forall i :: 0 <= i < |gs| ==> gs'[i] == gs[i];
    assert gs'[|gs|] == g;
  }

  lemma {:induction false} FoldInv(wr: Wrapper, st: WrapState, done: seq<string>, words: seq<string>)
    requires StateInv(wr, st, done)
    ensures StateInv(wr, Fold(wr, st, words), done + words)
    decreases |words|
  {
    if words == [] {
      assert done + words == done;
    } else {
      StepInv(wr, st, done, words[0]);
      FoldInv(wr, Step(wr, st, words[0]), done + [words[0]], words[1..]);
      assert done + [words[0]] + words[1..] == done + words;
    }
  }

  /** The wrap loses, splits and reorders no word; every line is non-empty;
   *  a line of two or more words fits the box; and each line was closed only
   *  because the next word would not fit (or, in the ritual variant, because
   *  it is an over-long word standing alone). */
  lemma GroupsWrap(wr: Wrapper, words: seq<string>)
    ensures Flatten(Groups(wr, words)) == words
    ensures WellWrapped(wr, Groups(wr, words))
  {
    FoldInv(wr, WrapState([], []), [], words);
    assert [] + words == words;
    var st := Fold(wr, WrapState([], []), words);
    FlattenAppend(st.groups, st.current);
    assert st.current == [] ==> Flatten(st.groups) + st.current == Flatten(st.groups);
  }

  lemma FlattenEmpty(gs: seq<seq<string>>)
    requires forall i :: 0 <= i < |gs| ==> gs[i] != []
    ensures Flatten(gs) == [] <==> gs == []
  {
  }

  /** The same facts about the text lines: splitting line i gives back exactly
   *  its group of words, so the words of all lines, in order, are
   *  `text.split()`; a text without words (the empty text) gives no lines and
   *  any other text at least one. */
  lemma WrappedLinesSound(wr: Wrapper, text: string)
    ensures |WrappedLines(wr, text)| == |Groups(wr, Words(text))|
    ensures forall i :: 0 <= i < |WrappedLines(wr, text)| ==>
              Words(WrappedLines(wr, text)[i]) == Groups(wr, Words(text))[i]
    ensures Flatten(Groups(wr, Words(text))) == Words(text)
    ensures WrappedLines(wr, text) == [] <==> Words(text) == []
    ensures forall i :: 0 <= i < |WrappedLines(wr, text)| ==>
              |Words(WrappedLines(wr, text)[i])| >= 2 ==>
              wr.m.width(WrappedLines(wr, text)[i], wr.size) as real <= wr.maxWidth
  {
    var words := Words(text);
    var gs := Groups(wr, words);
    GroupsWrap(wr, words);
    FlattenEmpty(gs);
    forall i | 0 <= i < |gs|
      ensures Words(JoinSpace(gs[i])) == gs[i]
    {
      FlattenMember(gs, i, words);
      WordsOfJoin(gs[i]);
    }
  }

  lemma {:induction false} FlattenMember(gs: seq<seq<string>>, i: nat, words: seq<string>)
    requires i < |gs| && Flatten(gs) == words
    requires forall k :: 0 <= k < |words| ==> IsWord(words[k])
    ensures forall k :: 0 <= k < |gs[i]| ==> IsWord(gs[i][k])
  {
    if i == 0 {
      assert forall k :: 0 <= k < |gs[0]| ==> gs[0][k] == words[k];
    } else {
      var n := |gs[0]|;
      assert Flatten(gs[1..]) == words[n..];
      FlattenMember(gs[1..], i - 1, words[n..]);
    }
  }

  /** In the card renderer (no over-long rule) the wrap is strictly greedy:
   *  every line is closed only because the next word would overflow it. */
  lemma CardWrapGreedy(wr: Wrapper, words: seq<string>, i: int)
    requires !wr.splitLong
    requires 0 <= i < |Groups(wr, words)| - 1
    ensures Groups(wr, words)[i + 1] != [] && !Fits(wr, Groups(wr, words)[i] + [Groups(wr, words)[i + 1][0]])
  {
    GroupsWrap(wr, words);
  }

  // ---------------------------------------------------------------------------
  // Font-size search

  /** `compute_text_height`: lines x (line height + 0.2 line height). */
  function TextHeight(lineCount: int, lineHeight: int): real
  {
    lineCount as real * (lineHeight as real + lineHeight as real * 0.2)
  }

  /** The break test of the size loop at `size`. */
  predicate SizeFits(m: Metrics, text: string, size: int, boxWidth: real, boxHeight: real, splitLong: bool)
  {
    TextHeight(|WrappedLines(Wrapper(m, size, boxWidth, splitLong), text)|, m.lineHeight(size)) <= boxHeight
  }

  const MinFontSize := 12

  /** The `while font_size >= min_font_size` loop: the largest size from
   *  `start` down to 12 whose wrapped text fits the box height, or 11 when none
   *  does; a start below 12 is used unchanged. */
  method FitFontSize(m: Metrics, text: string, start: int, boxWidth: real, boxHeight: real, splitLong: bool)
    returns (size: int)
    ensures start < MinFontSize ==> size == start
    ensures start >= MinFontSize ==> MinFontSize - 1 <= size <= start
    ensures size >= MinFontSize ==> SizeFits(m, text, size, boxWidth, boxHeight, splitLong)
    ensures forall s :: size < s <= start ==> !SizeFits(m, text, s, boxWidth, boxHeight, splitLong)
    // from a start of 12 or more, the search falls to 11 exactly when no size fits
    ensures start >= MinFontSize ==>
      (size == MinFontSize - 1 <==>
       forall s :: MinFontSize <= s <= start ==> !SizeFits(m, text, s, boxWidth, boxHeight, splitLong))
  {
    size := start;
    while size >= MinFontSize
      invariant size <= start
      invariant start < MinFontSize ==> size == start
      invariant start >= MinFontSize ==> MinFontSize - 1 <= size
      invariant forall s :: size < s <= start ==> !SizeFits(m, text, s, boxWidth, boxHeight, splitLong)
      decreases size
    {
      var lines := WrapLines(Wrapper(m, size, boxWidth, splitLong), text);
      var totalHeight := TextHeight(|lines|, m.lineHeight(size));
      if totalHeight <= boxHeight {
        break;
      }
      size := size - 1;
    }
    assert size >= MinFontSize ==> SizeFits(m, text, size, boxWidth, boxHeight, splitLong);
  }

  // ---------------------------------------------------------------------------
  // Placement

  datatype Alignment = AlignLeft | AlignRight | AlignCenter

  /** The `alignment` argument: anything but 'left' and 'right' centres. */
  function AlignmentOf(name: string): Alignment
  {
    if name == "left" then AlignLeft else if name == "right" then AlignRight else AlignCenter
  }

  /** The left edge `line_x` of a line of width `w` drawn at reference `x`. */
  function LineX(a: Alignment, x: real, w: real): (lx: real)
    ensures a == AlignLeft ==> lx == x
    ensures a == AlignRight ==> lx + w == x
    ensures a == AlignCenter ==> (lx + (lx + w)) / 2.0 == x
  {
    match a
    case AlignLeft => x
    case AlignRight => x - w
    case AlignCenter => x - w / 2.0
  }

  /** One `draw.text((line_x, current_y), line, ...)` call. */
  datatype Placement = Placement(x: real, y: real, line: string)

  function LineStep(lineHeight: int): real
  {
    lineHeight as real + lineHeight as real * 0.2
  }

  /** The drawing loop: each line is drawn once, in order, lines one step of
   *  1.2 line heights apart, the block centred vertically on `y`. */
  method PlaceLines(m: Metrics, size: int, lines: seq<string>, x: real, y: real, a: Alignment)
    returns (placed: seq<Placement>)
    ensures |placed| == |lines|
    ensures forall i :: 0 <= i < |lines| ==>
      placed[i] == Placement(LineX(a, x, m.width(lines[i], size) as real),
                             y - TextHeight(|lines|, m.lineHeight(size)) / 2.0 + i as real * LineStep(m.lineHeight(size)),
                             lines[i])
  {
    var lineHeight := m.lineHeight(size);
    var lineSpacing := lineHeight as real * 0.2;
    var totalTextHeight := |lines| as real * (lineHeight as real + lineSpacing);
    var currentY := y - totalTextHeight / 2.0;
    placed := [];
    var i := 0;
    while i < |lines|
      invariant 0 <= i <= |lines|
      invariant |placed| == i
      invariant currentY == y - totalTextHeight / 2.0 + i as real * LineStep(lineHeight)
      invariant forall k :: 0 <= k < i ==>
        placed[k] == Placement(LineX(a, x, m.width(lines[k], size) as real),
                               y - totalTextHeight / 2.0 + k as real * LineStep(lineHeight), lines[k])
    {
      var lineWidth := m.width(lines[i], size);
      var lineX := LineX(a, x, lineWidth as real);
      placed := placed + [Placement(lineX, currentY, lines[i])];
      currentY := currentY + (lineHeight as real + lineSpacing);
      i := i + 1;
    }
  }

  /** The line slots tile the block: the first starts at y - total/2 and the
   *  slot after the last one starts at y + total/2. */
  lemma BlockCentred(n: nat, lineHeight: int, y: real)
    ensures y - TextHeight(n, lineHeight) / 2.0 + n as real * LineStep(lineHeight)
         == y + TextHeight(n, lineHeight) / 2.0
  {
  }

  /** `draw_wrapped_text`: choose the size, wrap at that size and place the
   *  lines.  The card renderer always centres and has no over-long rule. */
  method DrawWrappedText(m: Metrics, text: string, x: real, y: real, boxWidth: real, boxHeight: real,
                         start: int, a: Alignment, splitLong: bool)
    returns (size: int, placed: seq<Placement>)
    ensures start < MinFontSize ==> size == start
    ensures start >= MinFontSize ==> MinFontSize - 1 <= size <= start
    ensures size >= MinFontSize ==> SizeFits(m, text, size, boxWidth, boxHeight, splitLong)
    ensures forall s :: size < s <= start ==> !SizeFits(m, text, s, boxWidth, boxHeight, splitLong)
    ensures |placed| == |WrappedLines(Wrapper(m, size, boxWidth, splitLong), text)|
    ensures forall i :: 0 <= i < |placed| ==>
      placed[i].line == WrappedLines(Wrapper(m, size, boxWidth, splitLong), text)[i]
  {
    size := FitFontSize(m, text, start, boxWidth, boxHeight, splitLong);
    var lines := WrapLines(Wrapper(m, size, boxWidth, splitLong), text);
    placed := PlaceLines(m, size, lines, x, y, a);
  }
}
