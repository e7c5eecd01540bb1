/** Laying text out.  CalcTextSizeA measures and RenderText draws with two loops of their own; here both are
    one walk over the text, read through two gauges, so that it can be said when they agree. */
module TextLayout {
  import opened Basics
  import opened Utf8
  import opened FontTable
  import opened WordWrap

  /** The width RenderText gives a character: it looks glyphs up by the low 16 bits. */
  function GlyphOf(t: Table, c: nat): Option<Glyph> {
    var i := Find(t, c % 0x10000);
    if i.Some? && i.value < |t.glyphs| then Some(t.glyphs[i.value]) else None
  }

  function DrawWidth(m: Metrics, c: nat): real {
    var glyph := GlyphOf(m.table, c);
    if glyph.Some? then glyph.value.xAdvance * m.scale else 0.0
  }

  datatype Gauge =
    | Measuring(metrics: Metrics, maxWidth: Option<real>)
    | Drawing(metrics: Metrics, y: real, lineHeight: real, top: real, bottom: real)
  {
    function Width(c: nat): real {
      if Measuring? then metrics.Width(c) else DrawWidth(metrics, c)
    }

    predicate Cuts(x: real) {
      Measuring? && maxWidth.Some? && x >= maxWidth.value
    }

    function LineTop(line: nat): real
      requires Drawing?
    {
      y + line as real * lineHeight
    }

    /** The line starts below the clip rectangle. */
    predicate Below(line: nat) {
      Drawing? && LineTop(line) > bottom
    }

    /** The line ends above the clip rectangle. */
    predicate Above(line: nat) {
      Drawing? && LineTop(line) + lineHeight < top
    }
  }

  /** `x` is the distance from the start of the line, `eol` where the line is to be wrapped, `widest` the
      greatest width of the lines before. */
  datatype Pen = Pen(s: nat, x: real, line: nat, eol: Option<nat>, widest: real)

  /** A character and where it was put. */
  datatype Mark = Mark(at: nat, c: nat, x: real, width: real, line: nat)

  datatype Layout = Layout(marks: seq<Mark>, end: Pen)

  datatype Move = Stop(end: Pen) | Go(next: Pen) | Put(mark: Mark, next: Pen)

  function Max(a: real, b: real): real {
    if a < b then b else a
  }

  // ----- The walk

  /** Wrapping skips upcoming blanks, and one line end. */
  function SkipBlanks(text: Text, s: nat): (r: nat)
    requires s <= |text|
    ensures s <= r <= |text|
    decreases |text| - s
  {
    if s == |text| then s
    else if IsSpace(text[s]) then SkipBlanks(text, s + 1)
    else if text[s] == NEWLINE then s + 1
    else s
  }

  /** Fast-forward to the line end. */
  function SkipLine(text: Text, s: nat): (r: nat)
    requires s <= |text|
    ensures s <= r <= |text|
    decreases |text| - s
  {
    if s < |text| && text[s] != NEWLINE then SkipLine(text, s + 1) else s
  }

  function NewLine(p: Pen): Pen {
    p.(x := 0.0, line := p.line + 1, widest := Max(p.widest, p.x))
  }

  /** Finds out how far the line goes.  At least one byte is let through. */
  function Opened(m: Metrics, text: Text, wrapWidth: real, p: Pen): (o: Pen)
    requires p.s < |text|
    ensures o == p || (p.eol.None? && wrapWidth > 0.0 && o.eol.Some? && p.s < o.eol.value <= |text|
            && o == p.(eol := o.eol))
  {
    if wrapWidth > 0.0 && p.eol.None? then
      var eol := WrapPosition(m, text, p.s, wrapWidth - p.x);
      p.(eol := Some(if eol == p.s then eol + 1 else eol))
    else p
  }

  predicate AtEol(p: Pen) {
    p.eol.Some? && p.s >= p.eol.value
  }

  function Remaining(text: Text, p: Pen): nat
    requires p.s <= |text|
  {
    2 * (|text| - p.s) + if p.eol.Some? then 1 else 0
  }

  function Wrapped(text: Text, o: Pen): Pen
    requires o.s <= |text|
  {
    NewLine(o).(s := SkipBlanks(text, o.s), eol := None)
  }

  /** Reads one character. */
  function ReadStep(g: Gauge, text: Text, wrapWidth: real, o: Pen): (move: Move)
    requires o.s < |text|
    ensures !move.Stop? ==> o.s < move.next.s <= |text| && move.next.eol == o.eol
  {
    var r := Read(text, o.s);
    var next := o.(s := o.s + r.len);
    if text[o.s] >= 0x80 && r.c == 0 then Stop(next)
    else if r.c == NEWLINE then
      var q := NewLine(next);
      if g.Below(q.line) then Stop(q)
      else if wrapWidth <= 0.0 && g.Above(q.line) then Go(q.(s := SkipLine(text, q.s)))
      else Go(q)
    else if r.c == RETURN then Go(next)
    else
      var w := g.Width(r.c);
      if g.Cuts(o.x + w) then Stop(o)
      else Put(Mark(o.s, r.c, o.x, w, o.line), next.(x := o.x + w))
  }

  function StepOf(g: Gauge, text: Text, wrapWidth: real, p: Pen): (move: Move)
    requires p.s < |text|
    ensures !move.Stop? ==> move.next.s <= |text| && Remaining(text, move.next) < Remaining(text, p)
  {
    var o := Opened(g.metrics, text, wrapWidth, p);
    if AtEol(o) then Go(Wrapped(text, o)) else ReadStep(g, text, wrapWidth, o)
  }

  function Run(g: Gauge, text: Text, wrapWidth: real, p: Pen): Layout
    requires p.s <= |text|
    decreases Remaining(text, p)
  {
    if p.s == |text| then Layout([], p)
    else
      match StepOf(g, text, wrapWidth, p)
      case Stop(end) => Layout([], end)
      case Go(next) => Run(g, text, wrapWidth, next)
      case Put(mark, next) =>
        var rest := Run(g, text, wrapWidth, next);
        Layout([mark] + rest.marks, rest.end)
  }

  const START := Pen(0, 0.0, 0, None, 0.0)

  // ----- The size of a layout

  function WidthOfLayout(l: Layout): real {
    Max(l.end.widest, l.end.x)
  }

  /** A last line without width counts only if it is the first. */
  function LinesOfLayout(l: Layout): nat {
    if l.end.x > 0.0 || l.end.line == 0 then l.end.line + 1 else l.end.line
  }

  method CalcTextSizeA(font: Font, fontSize: real, size: real, maxWidth: Option<real>, wrapWidth: real, text: Text)
      returns (width: real, height: real, remaining: nat)
    requires fontSize != 0.0
    ensures var layout := Run(Measuring(Metrics(font.View(), size / fontSize), maxWidth), text, wrapWidth, START);
            width == WidthOfLayout(layout) && height == HeightOf(size, LinesOfLayout(layout))
              && remaining == layout.end.s
  {
    hide Run, IsSpace, Read, WrapPosition, Advance, StepOf, ReadStep, SkipBlanks, SkipLine, EndsIn, HeightOf, Remaining,
      WidthOfLayout, LinesOfLayout, Metrics.Width;
    var lineHeight, scale := size, size / fontSize;
    ghost var m := Metrics(font.View(), scale);
    ghost var g := Measuring(m, maxWidth);
    width, height := 0.0, 0.0;
    var lineWidth := 0.0;
    var wordWrapEol: Option<nat> := None;
    var s: nat := 0;
    ghost var p := START;
    ghost var end := Run(g, text, wrapWidth, START).end;
    StartEnds(g, text, wrapWidth);
    HeightNext(size, 0);
    while s < |text|
      invariant p.s <= |text| && height == HeightOf(size, p.line)
      invariant p.s == s && p.x == lineWidth && p.widest == width
      invariant p.eol == wordWrapEol
      invariant wordWrapEol.Some? ==> wrapWidth > 0.0
      invariant EndsIn(g, text, wrapWidth, p, end)
      decreases Remaining(text, p)
    {
      HeightNext(size, p.line);
      if wrapWidth > 0.0 {
        if wordWrapEol.None? {
          var eol := CalcWordWrapPositionA(font, scale, text, s, wrapWidth - lineWidth);
          wordWrapEol := Some(if eol == s then eol + 1 else eol);
        }
        if s >= wordWrapEol.value {
          WrapEnds(g, text, wrapWidth, p, end);
          width := if width < lineWidth then lineWidth else width;
          height := height + lineHeight;
          lineWidth := 0.0;
          wordWrapEol := None;
          s := SkipBlanksFrom(text, s);
          p := Pen(s, lineWidth, p.line + 1, wordWrapEol, width);
          assert EndsIn(g, text, wrapWidth, p, end);
          continue;
        }
      }
      ReadEnds(g, text, wrapWidth, p, end);
      p := Opened(m, text, wrapWidth, p);
      var prevS := s;
      var r := Read(text, s);
      var c := r.c;
      s := s + r.len;
      if text[prevS] >= 0x80 && c == 0 {
        p := p.(s := s);
        break;
      }
      if c == NEWLINE {
        width := if width < lineWidth then lineWidth else width;
        height := height + lineHeight;
        lineWidth := 0.0;
        p := Pen(s, lineWidth, p.line + 1, wordWrapEol, width);
        assert EndsIn(g, text, wrapWidth, p, end);
        continue;
      }
      if c == RETURN {
        p := p.(s := s);
        continue;
      }
      var charWidth := (if c < |font.indexXAdvance| then font.indexXAdvance[c] else font.fallbackXAdvance) * scale;
      WidthOf(m, c);
      assert charWidth == m.Width(c) == g.metrics.Width(c);
      if maxWidth.Some? && lineWidth + charWidth >= maxWidth.value {
        s := prevS;
        break;
      }
      lineWidth := lineWidth + charWidth;
      p := p.(s := s, x := p.x + m.Width(c));
      assert EndsIn(g, text, wrapWidth, p, end);
    }
    TextEnds(g, text, wrapWidth, p, end);
    SizeAtEnd(Run(g, text, wrapWidth, START), size);
    width := if width < lineWidth then lineWidth else width;
    if lineWidth > 0.0 || height == 0.0 {
      height := height + lineHeight;
    }
    remaining := s;
  }

  lemma SizeAtEnd(l: Layout, size: real)
    ensures var height := HeightOf(size, l.end.line);
            && WidthOfLayout(l) == (if l.end.widest < l.end.x then l.end.x else l.end.widest)
            && HeightOf(size, LinesOfLayout(l)) == if l.end.x > 0.0 || height == 0.0 then height + size else height
  {
    HeightNext(size, l.end.line);
  }

  function HeightOf(size: real, lines: nat): real {
    size * lines as real
  }

  lemma HeightNext(size: real, line: nat)
    ensures HeightOf(size, line + 1) == HeightOf(size, line) + size
    ensures HeightOf(size, line) == 0.0 ==> line == 0 || size == 0.0
    ensures HeightOf(size, 0) == 0.0
    ensures size == 0.0 ==> forall n: nat :: HeightOf(size, n) == 0.0
  {}

  ghost predicate EndsIn(g: Gauge, text: Text, wrapWidth: real, p: Pen, end: Pen) {
    p.s <= |text| && Run(g, text, wrapWidth, p).end == end
  }

  lemma StartEnds(g: Gauge, text: Text, wrapWidth: real)
    ensures EndsIn(g, text, wrapWidth, START, Run(g, text, wrapWidth, START).end)
  {
    hide Run;
  }

  lemma TextEnds(g: Gauge, text: Text, wrapWidth: real, p: Pen, end: Pen)
    ensures p.s == |text| && EndsIn(g, text, wrapWidth, p, end) ==> p == end
  {}

  /** The step at the end of a wrapped line. */
  lemma WrapEnds(g: Gauge, text: Text, wrapWidth: real, p: Pen, end: Pen)
    requires p.s < |text| && AtEol(Opened(g.metrics, text, wrapWidth, p)) && EndsIn(g, text, wrapWidth, p, end)
    ensures var q := Pen(SkipBlanks(text, p.s), 0.0, p.line + 1, None, Max(p.widest, p.x));
            EndsIn(g, text, wrapWidth, q, end) && Remaining(text, q) < Remaining(text, p)
  {
    hide Run, ReadStep, SkipBlanks;
    RunStep(g, text, wrapWidth, p);
  }

  /** The step of measuring a character. */
  lemma ReadEnds(g: Gauge, text: Text, wrapWidth: real, p: Pen, end: Pen)
    requires p.s < |text| && !AtEol(Opened(g.metrics, text, wrapWidth, p)) && EndsIn(g, text, wrapWidth, p, end)
             && g.Measuring?
    ensures var (o, r) := (Opened(g.metrics, text, wrapWidth, p), Read(text, p.s));
            var (next, w) := (o.(s := o.s + r.len), g.metrics.Width(r.c));
            if text[p.s] >= 0x80 && r.c == 0 then end == next
            else if r.c == NEWLINE then
              var q := Pen(next.s, 0.0, o.line + 1, o.eol, Max(o.widest, o.x));
              EndsIn(g, text, wrapWidth, q, end) && Remaining(text, q) < Remaining(text, p)
            else if r.c == RETURN then
              EndsIn(g, text, wrapWidth, next, end) && Remaining(text, next) < Remaining(text, p)
            else if g.maxWidth.Some? && o.x + w >= g.maxWidth.value then end == o
            else
              var q := next.(x := o.x + w);
              EndsIn(g, text, wrapWidth, q, end) && Remaining(text, q) < Remaining(text, p)
  {
    hide Run, Opened, Read;
    RunStep(g, text, wrapWidth, p);
  }

  /** The inner loop of both walks. */
  method SkipBlanksFrom(text: Text, from: nat) returns (s: nat)
    requires from <= |text|
    ensures s == SkipBlanks(text, from)
  {
    s := from;
    while s < |text|
      invariant from <= s <= |text| && SkipBlanks(text, s) == SkipBlanks(text, from)
    {
      var c := text[s];
      if IsSpace(c) {
        s := s + 1;
      } else if c == NEWLINE {
        s := s + 1;
        break;
      } else {
        break;
      }
    }
  }

  lemma RunStep(g: Gauge, text: Text, wrapWidth: real, p: Pen)
    requires p.s <= |text|
    ensures p.s == |text| ==> Run(g, text, wrapWidth, p) == Layout([], p)
    ensures p.s < |text| ==>
              var move := StepOf(g, text, wrapWidth, p);
              Run(g, text, wrapWidth, p) ==
              if move.Stop? then Layout([], move.end)
              else
                var rest := Run(g, text, wrapWidth, move.next);
                if move.Go? then rest else Layout([move.mark] + rest.marks, rest.end)
  {
    hide StepOf;
  }
}
