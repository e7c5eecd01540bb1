/** What a caller of CalcTextSizeA may conclude about RenderText: the text is drawn where it was measured,
    and inside the box that was measured. */
module MeasuredText {
  import opened Basics
  import opened Utf8
  import opened FontTable
  import opened WordWrap
  import opened TextLayout
  import opened Lockstep
  import opened FineClip
  import opened DrawState
  import opened TextRenderer

  /** The clip rectangle does not cut off the height of the measured text. */
  predicate ClipShows(f: Frame, lines: nat) {
    f.clip.y <= f.pos.y + f.lineHeight && f.pos.y + HeightOf(f.lineHeight, lines) <= f.clip.w
  }

  lemma HeightGrows(lineHeight: real, a: nat, b: nat)
    requires lineHeight >= 0.0 && a <= b
    ensures 0.0 <= HeightOf(lineHeight, a) <= HeightOf(lineHeight, b)
  {}

  lemma ClipShowsLines(m: Metrics, f: Frame, wrapWidth: real, lines: nat)
    requires f.lineHeight >= 0.0 && ClipShows(f, lines)
    ensures ShowsLines(DrawGauge(m, f), wrapWidth, lines)
  {
    hide HeightOf;
    forall line: nat | line <= lines
      ensures !DrawGauge(m, f).Below(line) && !DrawGauge(m, f).Above(line)
    {
      LineTopIs(m, f, line);
      HeightGrows(f.lineHeight, line, lines);
    }
  }

  lemma LineTopIs(m: Metrics, f: Frame, line: nat)
    ensures DrawGauge(m, f).LineTop(line) == f.pos.y + HeightOf(f.lineHeight, line)
  {}

  function MeasuredLayout(m: Metrics, text: Text, wrapWidth: real): Layout {
    Run(Measuring(m, None), text, wrapWidth, START)
  }

  /** With a font as it is built and text without four-byte characters, RenderText draws the glyphs just
      where CalcTextSizeA counted them, wrapped or not, as long as the clip rectangle leaves the measured
      height alone. */
  lemma DrawsWhatIsMeasured(glyphs: seq<Glyph>, fallbackChar: Wchar, scale: real, f: Frame, text: Text, wrapWidth: real)
    requires AllForwards(glyphs) && |glyphs| < NO_GLYPH && scale > 0.0 && f.lineHeight >= 0.0
    requires forall i :: 0 <= i < |text| ==> text[i] < 0xF0
    requires ClipShows(f, LinesOfLayout(MeasuredLayout(Metrics(Build(glyphs, fallbackChar), scale), text, wrapWidth)))
    ensures var m := Metrics(Build(glyphs, fallbackChar), scale);
            && TextQuads(m, f, text, wrapWidth) == Quads(m, f, MeasuredLayout(m, text, wrapWidth).marks)
            && DrawnAsMeasured(m, MeasuredLayout(m, text, wrapWidth).marks)
  {
    hide Build, Run, Quads, ClipShows, DrawWidth;
    var m := Metrics(Build(glyphs, fallbackChar), scale);
    var l := MeasuredLayout(m, text, wrapWidth);
    ClipShowsLines(m, f, wrapWidth, LinesOfLayout(l));
    FirstLineShown(m, f, wrapWidth, LinesOfLayout(l));
    FewerLinesShown(m, f, wrapWidth, LinesOfLayout(l), l.end.line);
    BasicTextInLockstep(glyphs, fallbackChar, DrawGauge(m, f), text, wrapWidth);
    LockstepIff(m, DrawGauge(m, f), text, wrapWidth, START);
  }

  lemma FirstLineShown(m: Metrics, f: Frame, wrapWidth: real, lines: nat)
    requires ShowsLines(DrawGauge(m, f), wrapWidth, lines)
    ensures !DrawGauge(m, f).Below(0) && (wrapWidth > 0.0 || !DrawGauge(m, f).Above(0))
  {}

  lemma FewerLinesShown(m: Metrics, f: Frame, wrapWidth: real, lines: nat, fewer: nat)
    requires ShowsLines(DrawGauge(m, f), wrapWidth, lines) && fewer <= lines
    ensures ShowsLines(DrawGauge(m, f), wrapWidth, fewer)
  {}

  lemma BuiltIsSound(glyphs: seq<Glyph>, fallbackChar: Wchar)
    requires |glyphs| < NO_GLYPH
    ensures Sound(Build(glyphs, fallbackChar))
  {
    hide Build, Find;
    forall c: Wchar
      ensures var i := Find(Build(glyphs, fallbackChar), c);
              i.Some? ==> i.value < |Build(glyphs, fallbackChar).glyphs|
    {
      FindsWhatSearchFinds(glyphs, fallbackChar, c);
    }
  }

  // ----- The measured box holds the ink

  /** Space and TAB are never drawn. */
  predicate Drawn(t: Table, c: nat) {
    GlyphOf(t, c).Some? && c != SPACE && c != TAB
  }

  /** The ink stays within the glyph's advance and the line, but for a margin. */
  predicate GlyphInLine(g: Glyph, scale: real, lineHeight: real, margin: real) {
    && -margin <= g.x0 * scale && g.x1 * scale <= g.xAdvance * scale + margin
    && -margin <= g.y0 * scale && g.y1 * scale <= lineHeight + margin
  }

  /** The ink of every character of the layout that is drawn stays in its line, and the line counts: a last line
      without width does not, unless it is the first. */
  ghost predicate InkInLines(m: Metrics, lineHeight: real, margin: real, l: Layout) {
    forall i :: 0 <= i < |l.marks| ==> MarkInLine(m, lineHeight, margin, LinesOfLayout(l), l.marks[i])
  }

  predicate MarkInLine(m: Metrics, lineHeight: real, margin: real, lines: nat, mark: Mark) {
    Drawn(m.table, mark.c) ==>
      mark.line < lines && GlyphInLine(GlyphOf(m.table, mark.c).value, m.scale, lineHeight, margin)
  }

  /** A font all of whose drawn glyphs stay in their lines and move the pen. */
  ghost predicate FontInLine(t: Table, scale: real, lineHeight: real, margin: real) {
    forall c: Wchar :: Drawn(t, c) ==>
      var g := GlyphOf(t, c).value;
      0.0 < g.xAdvance * scale && GlyphInLine(g, scale, lineHeight, margin)
  }

  predicate InBox(q: Quad, f: Frame, width: real, height: real, margin: real) {
    && f.pos.x - margin <= q.x.a1 && q.x.a2 <= f.pos.x + width + margin
    && f.pos.y - margin <= q.y.a1 && q.y.a2 <= f.pos.y + height + margin
  }

  lemma ClippedInBox(q: Quad, f: Frame, width: real, height: real, margin: real)
    requires InBox(q, f, width, height, margin)
    ensures var r := Clipped(q, f.clip, f.byZero);
            r.Some? ==> InBox(r.value, f, width, height, margin)
  {
    hide CutLow, CutHigh;
    CutPositions(q.x, f.clip.x, f.clip.z, f.byZero);
    CutPositions(q.y, f.clip.y, f.clip.w, f.byZero);
  }

  lemma MarkInBox(m: Metrics, f: Frame, mark: Mark, width: real, lines: nat, margin: real)
    requires MarkInLine(m, f.lineHeight, margin, lines, mark) && f.lineHeight >= 0.0 && mark.c < 0x10000
    requires DrawWidth(m, mark.c) == mark.width && 0.0 <= mark.x && mark.x + mark.width <= width
    ensures var q := MarkQuad(m, f, mark);
            q.Some? ==> InBox(q.value, f, width, HeightOf(f.lineHeight, lines), margin)
  {
    hide HeightOf, Clipped, GlyphOf, Touches;
    if Drawn(m.table, mark.c) {
      var (x, y) := (f.pos.x + mark.x, DrawGauge(m, f).LineTop(mark.line));
      var q := WholeQuad(GlyphOf(m.table, mark.c).value, m.scale, x, y);
      LineTopIs(m, f, mark.line);
      HeightNext(f.lineHeight, mark.line);
      HeightGrows(f.lineHeight, 0, mark.line);
      HeightGrows(f.lineHeight, mark.line + 1, lines);
      ClippedInBox(q, f, width, HeightOf(f.lineHeight, lines), margin);
    }
  }

  lemma {:induction false} QuadsInBox(m: Metrics, f: Frame, marks: seq<Mark>, width: real, lines: nat, margin: real)
    requires f.lineHeight >= 0.0 && DrawnAsMeasured(m, marks)
    requires forall i :: 0 <= i < |marks| ==>
               && MarkInLine(m, f.lineHeight, margin, lines, marks[i])
               && marks[i].c < 0x10000 && 0.0 <= marks[i].x && marks[i].x + marks[i].width <= width
    ensures forall q :: q in Quads(m, f, marks) ==> InBox(q, f, width, HeightOf(f.lineHeight, lines), margin)
  {
    hide InBox, HeightOf, MarkQuad, MarkInLine, DrawWidth;
    if marks != [] {
      MarkInBox(m, f, marks[0], width, lines, margin);
      QuadsInBox(m, f, marks[1..], width, lines, margin);
    }
  }

  /** Whatever RenderText draws of the text lies in the box that CalcTextSizeA gives for it, or sticks out of it by
      no more than the glyphs of its characters stick out of their own. */
  lemma DrawnInMeasuredBox(glyphs: seq<Glyph>, fallbackChar: Wchar, scale: real, f: Frame, text: Text, wrapWidth: real,
                           margin: real)
    requires AllForwards(glyphs) && |glyphs| < NO_GLYPH && scale > 0.0 && f.lineHeight >= 0.0
    requires forall i :: 0 <= i < |text| ==> text[i] < 0xF0
    requires var m := Metrics(Build(glyphs, fallbackChar), scale);
             var l := MeasuredLayout(m, text, wrapWidth);
             InkInLines(m, f.lineHeight, margin, l) && ClipShows(f, LinesOfLayout(l))
    ensures var m := Metrics(Build(glyphs, fallbackChar), scale);
            var l := MeasuredLayout(m, text, wrapWidth);
            forall q :: q in TextQuads(m, f, text, wrapWidth) ==>
              InBox(q, f, WidthOfLayout(l), HeightOf(f.lineHeight, LinesOfLayout(l)), margin)
  {
    hide Build, Run, Quads, ClipShows, MarkInLine, InBox, HeightOf, TextQuads, DrawnAsMeasured;
    var m := Metrics(Build(glyphs, fallbackChar), scale);
    var l := MeasuredLayout(m, text, wrapWidth);
    DrawsWhatIsMeasured(glyphs, fallbackChar, scale, f, text, wrapWidth);
    BuiltForwards(glyphs, fallbackChar, scale);
    var g := Measuring(m, None);
    MeasureForwards(m);
    RunBasic(g, text, wrapWidth, START);
    forall i | 0 <= i < |l.marks|
      ensures 0.0 <= l.marks[i].x && l.marks[i].x + l.marks[i].width <= WidthOfLayout(l) && l.marks[i].c < 0x10000
    {
      MarksInBox(g, text, wrapWidth, i);
    }
    QuadsInBox(m, f, l.marks, WidthOfLayout(l), LinesOfLayout(l), margin);
  }

  /** If all glyphs of the font stay in their lines and move the pen, so does every text. */
  lemma FontKeepsInk(glyphs: seq<Glyph>, fallbackChar: Wchar, scale: real, lineHeight: real, text: Text,
                     wrapWidth: real, margin: real)
    requires AllForwards(glyphs) && |glyphs| < NO_GLYPH && scale > 0.0
    requires forall i :: 0 <= i < |text| ==> text[i] < 0xF0
    requires FontInLine(Build(glyphs, fallbackChar), scale, lineHeight, margin)
    ensures var m := Metrics(Build(glyphs, fallbackChar), scale);
            InkInLines(m, lineHeight, margin, MeasuredLayout(m, text, wrapWidth))
  {
    hide Build, Run, GlyphInLine, LinesOfLayout;
    var m := Metrics(Build(glyphs, fallbackChar), scale);
    var g := Measuring(m, None);
    var l := MeasuredLayout(m, text, wrapWidth);
    WidthsAgreeOnMarks(glyphs, fallbackChar, m, text, wrapWidth);
    BuiltForwards(glyphs, fallbackChar, scale);
    MeasureForwards(m);
    RunBasic(g, text, wrapWidth, START);
    forall i | 0 <= i < |l.marks|
      ensures MarkInLine(m, lineHeight, margin, LinesOfLayout(l), l.marks[i])
    {
      MarksInBox(g, text, wrapWidth, i);
      assert DrawWidth(m, l.marks[i].c) == l.marks[i].width;
    }
  }

  lemma MeasureForwards(m: Metrics)
    requires m.NeverBackwards()
    ensures Lockstep.NeverBackwards(Measuring(m, None))
  {}

  /** A space without ink does not matter: here is a font with such a space whose texts all stay in their boxes. */
  lemma InklessSpaceIsFine()
    ensures var space := Glyph(SPACE, 7.0, 0.0, 0.0, 0.0, 0.0, 0.0, 0.0, 0.0, 0.0);
            var letter := Glyph(0x41, 7.0, 1.0, 2.0, 6.0, 11.0, 0.0, 0.0, 1.0, 1.0);
            AllForwards([space, letter]) && FontInLine(Build([space, letter], 0x41), 1.0, 13.0, 0.0)
  {
    hide Build, GlyphOf;
    var space := Glyph(SPACE, 7.0, 0.0, 0.0, 0.0, 0.0, 0.0, 0.0, 0.0, 0.0);
    var letter := Glyph(0x41, 7.0, 1.0, 2.0, 6.0, 11.0, 0.0, 0.0, 1.0, 1.0);
    var glyphs := [space, letter];
    var t := Build(glyphs, 0x41);
    forall c: Wchar | c != SPACE && c != TAB && GlyphOf(t, c).Some?
      ensures GlyphOf(t, c).value == letter
    {
      OnlyGlyph(glyphs, c);
    }
  }

  /** With one glyph besides space, which is the fallback glyph too, no other is ever drawn. */
  lemma OnlyGlyph(glyphs: seq<Glyph>, c: Wchar)
    requires |glyphs| == 2 && glyphs[0].codepoint == SPACE && glyphs[1].codepoint == 0x41 && c != SPACE && c != TAB
    ensures GlyphOf(Build(glyphs, 0x41), c) == Some(glyphs[1])
  {
    hide Build, WithTab, LastGlyph, Find;
    BuildTab(glyphs, 0x41);
    FindsWhatSearchFinds(glyphs, 0x41, c);
    BuildOnlyChangesTab(glyphs, c);
    BuildOnlyChangesTab(glyphs, 0x41);
    LastGlyphIs(glyphs, 0x41, 1);
    var last := LastGlyph(glyphs, c);
    assert c != 0x41 ==> last.None?;
  }
}
