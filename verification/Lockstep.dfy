/** What measuring a text tells about drawing it: when the two walks are one, what the measured box holds,
    and that wrapped lines fit. */
module Lockstep {
  import opened Basics
  import opened Utf8
  import opened FontTable
  import opened WordWrap
  import opened TextLayout

  // ----- Measuring and drawing step together

  /** The clip rectangle stops none of the lines that follow the first. */
  ghost predicate ShowsLines(d: Gauge, wrapWidth: real, lines: nat)
    requires d.Drawing?
  {
    forall line: nat :: line <= lines ==> !d.Below(line) && (wrapWidth > 0.0 || !d.Above(line))
  }

  ghost predicate DrawnAsMeasured(m: Metrics, marks: seq<Mark>) {
    forall i :: 0 <= i < |marks| ==> DrawWidth(m, marks[i].c) == marks[i].width
  }

  lemma {:induction false} LinesGrow(g: Gauge, text: Text, wrapWidth: real, p: Pen)
    requires p.s <= |text|
    ensures Run(g, text, wrapWidth, p).end.line >= p.line
    decreases Remaining(text, p)
  {
    hide StepOf, Remaining;
    RunStep(g, text, wrapWidth, p);
    if p.s < |text| {
      StepGrows(g, text, wrapWidth, p);
      var move := StepOf(g, text, wrapWidth, p);
      if !move.Stop? {
        LinesGrow(g, text, wrapWidth, move.next);
      }
    }
  }

  /** A pen stays on its line and moves on, or it starts the next line. */
  ghost predicate Follows(p: Pen, q: Pen, step: real) {
    || (q.line == p.line && q.x == p.x + step && q.widest == p.widest)
    || (step == 0.0 && q.line == p.line + 1 && q.x == 0.0 && q.widest == Max(p.widest, p.x))
  }

  lemma StepGrows(g: Gauge, text: Text, wrapWidth: real, p: Pen)
    requires p.s < |text|
    ensures match StepOf(g, text, wrapWidth, p)
            case Stop(end) => Follows(p, end, 0.0)
            case Go(next) => Follows(p, next, 0.0)
            case Put(mark, next) =>
              && Follows(p, next, mark.width) && mark.width == g.Width(mark.c)
              && mark.x == p.x && mark.line == p.line == next.line
  {
    hide Read, WrapPosition, SkipBlanks, SkipLine;
  }

  /** The step of the drawing loop, as long as the lines are shown. */
  lemma StepTogether(m: Metrics, d: Gauge, text: Text, wrapWidth: real, p: Pen, lines: nat)
    requires p.s < |text| && d.Drawing? && d.metrics == m && ShowsLines(d, wrapWidth, lines)
    requires var move := StepOf(Measuring(m, None), text, wrapWidth, p);
             !move.Stop? ==> move.next.line <= lines
    ensures match StepOf(Measuring(m, None), text, wrapWidth, p)
            case Stop(end) => StepOf(d, text, wrapWidth, p) == Stop(end)
            case Go(next) => StepOf(d, text, wrapWidth, p) == Go(next)
            case Put(mark, next) =>
              var w := DrawWidth(m, mark.c);
              StepOf(d, text, wrapWidth, p) == Put(mark.(width := w), next.(x := mark.x + w))
  {
    hide Read, WrapPosition, SkipBlanks, SkipLine, DrawWidth, Advance;
  }

  /** CalcTextSizeA and RenderText run in lockstep (the same marks at the same pen offsets on the same
      lines) exactly when every character they come by is as wide in the glyph list as in the index. */
  lemma {:induction false} LockstepIff(m: Metrics, d: Gauge, text: Text, wrapWidth: real, p: Pen)
    requires p.s <= |text| && d.Drawing? && d.metrics == m
    requires ShowsLines(d, wrapWidth, Run(Measuring(m, None), text, wrapWidth, p).end.line)
    ensures Run(d, text, wrapWidth, p) == Run(Measuring(m, None), text, wrapWidth, p)
            <==> DrawnAsMeasured(m, Run(Measuring(m, None), text, wrapWidth, p).marks)
    decreases Remaining(text, p)
  {
    hide StepOf, Remaining, DrawWidth, ShowsLines, Run;
    var g := Measuring(m, None);
    RunStep(g, text, wrapWidth, p);
    RunStep(d, text, wrapWidth, p);
    if p.s < |text| {
      var move := StepOf(g, text, wrapWidth, p);
      var l := Run(g, text, wrapWidth, p);
      if !move.Stop? {
        LinesGrow(g, text, wrapWidth, move.next);
      }
      StepTogether(m, d, text, wrapWidth, p, l.end.line);
      StepGrows(g, text, wrapWidth, p);
      if move.Go? {
        LockstepIff(m, d, text, wrapWidth, move.next);
      } else if move.Put? {
        var rest := Run(g, text, wrapWidth, move.next);
        if DrawWidth(m, move.mark.c) == move.mark.width {
          LockstepIff(m, d, text, wrapWidth, move.next);
          DrawnTail(m, move.mark, rest.marks);
          SameTail(move.mark, Run(d, text, wrapWidth, move.next).marks, rest.marks);
        } else {
          assert l.marks[0] == move.mark;
          assert Run(d, text, wrapWidth, p).marks[0] != move.mark;
        }
      }
    }
  }

  lemma DrawnTail(m: Metrics, mark: Mark, marks: seq<Mark>)
    requires DrawWidth(m, mark.c) == mark.width
    ensures DrawnAsMeasured(m, [mark] + marks) <==> DrawnAsMeasured(m, marks)
  {
    hide DrawWidth;
    var all := [mark] + marks;
    if DrawnAsMeasured(m, all) {
      forall i | 0 <= i < |marks|
        ensures DrawWidth(m, marks[i].c) == marks[i].width
      {
        assert all[i + 1] == marks[i];
      }
    }
  }

  // ----- The measured box

  ghost predicate NeverBackwards(g: Gauge) {
    forall c: nat :: g.Width(c) >= 0.0
  }

  /** The mark lies inside a layout that ends with the pen `end`. */
  predicate Inside(mark: Mark, end: Pen) {
    && 0.0 <= mark.x && 0.0 <= mark.width && mark.line <= end.line
    && mark.x + mark.width <= if mark.line == end.line then end.x else end.widest
  }

  /** Where a pen can go from p. */
  predicate Reaches(p: Pen, end: Pen) {
    && p.line <= end.line && p.widest <= end.widest
    && p.x <= if p.line == end.line then end.x else end.widest
  }

  lemma FollowsReaches(p: Pen, q: Pen, step: real, end: Pen)
    requires p.x >= 0.0 && step >= 0.0 && Follows(p, q, step) && Reaches(q, end)
    ensures Reaches(p, end) && q.x >= 0.0
    ensures q.line == p.line ==> p.x + step <= if p.line == end.line then end.x else end.widest
  {}

  lemma {:induction false} RunInside(g: Gauge, text: Text, wrapWidth: real, p: Pen)
    requires p.s <= |text| && NeverBackwards(g) && p.x >= 0.0
    ensures var l := Run(g, text, wrapWidth, p);
            Reaches(p, l.end) && l.end.x >= 0.0 && forall i :: 0 <= i < |l.marks| ==> Inside(l.marks[i], l.end)
    decreases Remaining(text, p)
  {
    hide StepOf, Remaining, Run, Follows, Reaches;
    RunStep(g, text, wrapWidth, p);
    ReachesItself(p);
    if p.s < |text| {
      StepGrows(g, text, wrapWidth, p);
      var end := Run(g, text, wrapWidth, p).end;
      match StepOf(g, text, wrapWidth, p) {
        case Stop(q) =>
          ReachesItself(q);
          FollowsReaches(p, q, 0.0, end);
        case Go(q) =>
          PenStaysRight(p, q, 0.0);
          RunInside(g, text, wrapWidth, q);
          FollowsReaches(p, q, 0.0, end);
        case Put(mark, q) =>
          assert g.Width(mark.c) >= 0.0;
          PenStaysRight(p, q, mark.width);
          RunInside(g, text, wrapWidth, q);
          FollowsReaches(p, q, mark.width, end);
          ReachesLine(q, end);
      }
    }
  }

  lemma ReachesItself(p: Pen)
    ensures Reaches(p, p)
  {}

  lemma ReachesLine(p: Pen, end: Pen)
    requires Reaches(p, end)
    ensures p.line <= end.line
  {}

  lemma PenStaysRight(p: Pen, q: Pen, step: real)
    requires p.x >= 0.0 && step >= 0.0 && Follows(p, q, step)
    ensures q.x >= 0.0
  {}

  /** Every character that is measured lies in the measured box. */
  lemma MarksInBox(g: Gauge, text: Text, wrapWidth: real, i: nat)
    requires NeverBackwards(g) && i < |Run(g, text, wrapWidth, START).marks|
    ensures var l := Run(g, text, wrapWidth, START);
            var mark := l.marks[i];
            && 0.0 <= mark.x && mark.x + mark.width <= WidthOfLayout(l)
            && (mark.x + mark.width > 0.0 ==> mark.line < LinesOfLayout(l))
  {
    hide Run;
    RunInside(g, text, wrapWidth, START);
    assert Inside(Run(g, text, wrapWidth, START).marks[i], Run(g, text, wrapWidth, START).end);
  }

  // ----- max_width

  /** A limit on the width changes nothing exactly when the unlimited text stays under it. */
  lemma {:induction false} LimitCutsNothingIff(m: Metrics, text: Text, wrapWidth: real, p: Pen, maxWidth: real)
    requires p.s <= |text|
    ensures var l := Run(Measuring(m, None), text, wrapWidth, p);
            Run(Measuring(m, Some(maxWidth)), text, wrapWidth, p) == l
            <==> Under(l.marks, maxWidth)
    decreases Remaining(text, p)
  {
    hide StepOf, Remaining, Run, Under;
    var free, limited := Measuring(m, None), Measuring(m, Some(maxWidth));
    RunStep(free, text, wrapWidth, p);
    RunStep(limited, text, wrapWidth, p);
    NoneUnder(maxWidth);
    if p.s < |text| {
      LimitedStep(m, text, wrapWidth, p, maxWidth);
      var move := StepOf(free, text, wrapWidth, p);
      if !move.Stop? {
        LimitCutsNothingIff(m, text, wrapWidth, move.next, maxWidth);
      }
      if move.Put? {
        var rest := Run(free, text, wrapWidth, move.next).marks;
        UnderTail(move.mark, rest, maxWidth);
        SameTail(move.mark, Run(limited, text, wrapWidth, move.next).marks, rest);
      }
    }
  }

  ghost predicate Under(marks: seq<Mark>, maxWidth: real) {
    forall i :: 0 <= i < |marks| ==> marks[i].x + marks[i].width < maxWidth
  }

  lemma UnderTail(mark: Mark, marks: seq<Mark>, maxWidth: real)
    ensures Under([mark] + marks, maxWidth) <==> mark.x + mark.width < maxWidth && Under(marks, maxWidth)
  {
    var all := [mark] + marks;
    assert all[0] == mark;
    if Under(all, maxWidth) {
      forall i | 0 <= i < |marks|
        ensures marks[i].x + marks[i].width < maxWidth
      {
        assert all[i + 1] == marks[i];
      }
    }
  }

  lemma NoneUnder(maxWidth: real)
    ensures Under([], maxWidth)
  {}

  lemma SameTail(mark: Mark, a: seq<Mark>, b: seq<Mark>)
    ensures [mark] + a == [mark] + b <==> a == b
  {
    assert ([mark] + a)[1..] == a && ([mark] + b)[1..] == b;
  }

  lemma LimitedStep(m: Metrics, text: Text, wrapWidth: real, p: Pen, maxWidth: real)
    requires p.s < |text|
    ensures match StepOf(Measuring(m, None), text, wrapWidth, p)
            case Put(mark, next) =>
              var limited := StepOf(Measuring(m, Some(maxWidth)), text, wrapWidth, p);
              if mark.x + mark.width >= maxWidth then limited.Stop? else limited == Put(mark, next)
            case move => StepOf(Measuring(m, Some(maxWidth)), text, wrapWidth, p) == move
  {
    hide Read, WrapPosition, SkipBlanks, SkipLine, Advance;
  }

  // ----- Wrapped lines fit

  /** The line that is being laid out started at `start`, k characters back, and its wrap position is the
      start of character e, or it is forced to hold one byte. */
  ghost predicate OnLine(m: Metrics, text: Text, wrapWidth: real, p: Pen, start: nat, k: nat, e: nat)
    requires p.eol.Some?
  {
    && start <= |text| && p.s == Pos(text, start, k) && p.x == LineAt(m, text, start, k).total
    && ((p.eol.value == Pos(text, start, e) && FitsUpTo(m, text, start, wrapWidth, e))
        || (p.eol.value == start + 1 && k == 0))
  }

  ghost predicate Wrapping(m: Metrics, text: Text, wrapWidth: real, p: Pen) {
    if p.eol.None? then p.x == 0.0
    else AtEol(p) || exists start: nat, k: nat, e: nat :: OnLine(m, text, wrapWidth, p, start, k, e)
  }

  lemma OpenedWrapping(m: Metrics, text: Text, wrapWidth: real, p: Pen)
    requires p.s < |text| && m.NeverBackwards() && wrapWidth > 0.0 && Wrapping(m, text, wrapWidth, p)
    ensures var o := Opened(m, text, wrapWidth, p);
            o.eol.Some? && Wrapping(m, text, wrapWidth, o)
  {
    hide WrapPosition, WellWrapped, FitsUpTo, Pos;
    var o := Opened(m, text, wrapWidth, p);
    if p.eol.None? {
      var r := WrapPosition(m, text, p.s, wrapWidth);
      LineStarts(m, text, p.s);
      if r == p.s {
        assert OnLine(m, text, wrapWidth, o, p.s, 0, 0);
      } else {
        var e := WrapsWithin(m, text, p.s, wrapWidth);
        assert OnLine(m, text, wrapWidth, o, p.s, 0, e);
      }
    }
  }

  lemma LineStarts(m: Metrics, text: Text, start: nat)
    requires start <= |text|
    ensures Pos(text, start, 0) == start && LineAt(m, text, start, 0) == Line(0.0, 0.0)
  {}

  /** Everything before the wrap position fits. */
  lemma WrapsWithin(m: Metrics, text: Text, start: nat, wrapWidth: real) returns (e: nat)
    requires start <= |text| && m.NeverBackwards() && wrapWidth > 0.0
    ensures WrapPosition(m, text, start, wrapWidth) == Pos(text, start, e) && FitsUpTo(m, text, start, wrapWidth, e)
  {
    hide WrapPosition, LineAt, Pos, Stops, MayBreak, Solid, InkWidth, SameLine;
    WrapsWell(m, text, start, wrapWidth);
    var r := WrapPosition(m, text, start, wrapWidth);
    if k: nat :| TakesAll(m, text, start, wrapWidth, r, k) {
      e := k;
    } else if k: nat, o: nat :| BreaksBetweenWords(m, text, start, wrapWidth, r, k, o) {
      e := k;
    } else {
      var w: nat, o: nat :| CutsWideWord(m, text, start, wrapWidth, r, w, o);
      e := o;
    }
  }

  lemma {:induction false} PosMonotone(text: Text, start: nat, j: nat, k: nat)
    requires start <= |text| && j <= k
    ensures Pos(text, start, j) <= Pos(text, start, k)
    decreases k - j
  {
    if j < k {
      PosMonotone(text, start, j, k - 1);
    }
  }

  /** Reading on in a wrapped line. */
  lemma ReadWrapping(m: Metrics, text: Text, wrapWidth: real, o: Pen)
    requires o.s < |text| && o.eol.Some? && !AtEol(o) && wrapWidth > 0.0 && Wrapping(m, text, wrapWidth, o)
    ensures match ReadStep(Measuring(m, None), text, wrapWidth, o)
            case Stop(_) => true
            case Go(next) => Wrapping(m, text, wrapWidth, next)
            case Put(mark, next) =>
              && Wrapping(m, text, wrapWidth, next)
              && (IsInk(mark.c) ==> mark.x == 0.0 || mark.x + mark.width < wrapWidth)
  {
    hide Read, FitsUpTo, LineAt, Pos;
    var start: nat, k: nat, e: nat :| OnLine(m, text, wrapWidth, o, start, k, e);
    if o.eol.value == start + 1 && k == 0 {
      LineStarts(m, text, start);
    } else {
      if e <= k {
        PosMonotone(text, start, e, k);
      }
      LineGoesOn(m, text, wrapWidth, o, start, k, e);
    }
  }

  lemma LineGoesOn(m: Metrics, text: Text, wrapWidth: real, o: Pen, start: nat, k: nat, e: nat)
    requires o.s < |text| && o.eol.Some? && wrapWidth > 0.0 && k < e
    requires start <= |text| && o.s == Pos(text, start, k) && o.x == LineAt(m, text, start, k).total
    requires o.eol.value == Pos(text, start, e) && FitsUpTo(m, text, start, wrapWidth, e)
    requires !AtEol(o)
    ensures match ReadStep(Measuring(m, None), text, wrapWidth, o)
            case Stop(_) => true
            case Go(next) => OnLine(m, text, wrapWidth, next, start, k + 1, e)
            case Put(mark, next) =>
              && OnLine(m, text, wrapWidth, next, start, k + 1, e)
              && (IsInk(mark.c) ==> mark.x + mark.width < wrapWidth)
  {
    hide Advance;
    if Stops(text, o.s) {
      StopsForGood(m, text, start, k, e);
    } else {
      ReadOn(text, start, k);
      assert LineAt(m, text, start, k + 1).trimmed < wrapWidth;
      assert LineAt(m, text, start, k + 1) == Extended(m, LineAt(m, text, start, k), CharAt(text, start, k));
    }
  }

  lemma {:induction false} RunWrapped(m: Metrics, text: Text, wrapWidth: real, p: Pen)
    requires p.s <= |text| && m.NeverBackwards() && wrapWidth > 0.0 && Wrapping(m, text, wrapWidth, p)
    ensures var marks := Run(Measuring(m, None), text, wrapWidth, p).marks;
            forall i :: 0 <= i < |marks| && IsInk(marks[i].c) ==>
                          marks[i].x == 0.0 || marks[i].x + marks[i].width < wrapWidth
    decreases Remaining(text, p)
  {
    hide Run, ReadStep, Opened, Remaining, Wrapping, SkipBlanks, IsInk;
    var g := Measuring(m, None);
    RunStep(g, text, wrapWidth, p);
    if p.s < |text| {
      var o := Opened(m, text, wrapWidth, p);
      OpenedWrapping(m, text, wrapWidth, p);
      if AtEol(o) {
        NewLineWrapping(m, text, wrapWidth, o);
        RunWrapped(m, text, wrapWidth, Wrapped(text, o));
      } else {
        ReadWrapping(m, text, wrapWidth, o);
        match ReadStep(g, text, wrapWidth, o) {
          case Stop(_) =>
          case Go(next) => RunWrapped(m, text, wrapWidth, next);
          case Put(_, next) => RunWrapped(m, text, wrapWidth, next);
        }
      }
    }
  }

  lemma NewLineWrapping(m: Metrics, text: Text, wrapWidth: real, o: Pen)
    requires o.s <= |text|
    ensures Wrapping(m, text, wrapWidth, Wrapped(text, o))
  {}

  /** Word wrap keeps its promise: in a wrapped text every character that is not blank ends before the wrap
      width, unless it is at the very start of its line. */
  lemma WrappedTextFits(m: Metrics, text: Text, wrapWidth: real, i: nat)
    requires m.NeverBackwards() && wrapWidth > 0.0
    requires i < |Run(Measuring(m, None), text, wrapWidth, START).marks|
    ensures var mark := Run(Measuring(m, None), text, wrapWidth, START).marks[i];
            IsInk(mark.c) ==> mark.x == 0.0 || mark.x + mark.width < wrapWidth
  {
    hide Run;
    RunWrapped(m, text, wrapWidth, START);
  }

  // ----- Fonts as they are built

  ghost predicate AllForwards(glyphs: seq<Glyph>) {
    forall i :: 0 <= i < |glyphs| ==> glyphs[i].xAdvance >= 0.0
  }

  lemma WithTabForwards(glyphs: seq<Glyph>)
    requires AllForwards(glyphs)
    ensures AllForwards(WithTab(glyphs))
  {}

  lemma BuiltGlyphs(glyphs: seq<Glyph>, fallbackChar: Wchar, c: Wchar)
    requires AllForwards(glyphs) && |glyphs| < NO_GLYPH
    ensures var t := Build(glyphs, fallbackChar);
            && (Find(t, c).Some? ==> Find(t, c).value < |t.glyphs|)
            && Advance(t, c) == AdvanceOf(t.glyphs, Find(t, c)) >= 0.0
  {
    hide Build, Find, Advance, AdvanceOf;
    FindsWhatSearchFinds(glyphs, fallbackChar, c);
    AdvanceIsGlyphsIff(glyphs, fallbackChar, c);
    BuildTab(glyphs, fallbackChar);
    WithTabForwards(glyphs);
    AdvanceForwards(WithTab(glyphs), Find(Build(glyphs, fallbackChar), c));
  }

  lemma BuildTab(glyphs: seq<Glyph>, fallbackChar: Wchar)
    ensures var t := Build(glyphs, fallbackChar);
            && t.glyphs == WithTab(glyphs) && |t.xAdvance| <= 0x10000
            && (t.fallback.Some? ==> t.fallback.value < |t.glyphs|)
            && t.fallbackXAdvance == AdvanceOf(t.glyphs, t.fallback)
  {
    hide WithTab, LastGlyph, MaxCodepoint;
  }

  lemma AdvanceForwards(glyphs: seq<Glyph>, i: Option<nat>)
    requires AllForwards(glyphs) && (i.Some? ==> i.value < |glyphs|)
    ensures AdvanceOf(glyphs, i) >= 0.0
  {}

  /** With a font as it is built, measuring and drawing give a character the same width, unless it lies beyond
      the 16 bits that RenderText looks up: then only if the glyph it is mistaken for is as wide as the
      fallback glyph. */
  lemma WidthsAgreeIff(glyphs: seq<Glyph>, fallbackChar: Wchar, scale: real, c: nat)
    requires AllForwards(glyphs) && |glyphs| < NO_GLYPH && scale > 0.0
    ensures var t := Build(glyphs, fallbackChar);
            var mistaken := Find(t, c % 0x10000);
            && (mistaken.Some? ==> mistaken.value < |t.glyphs|)
            && (DrawWidth(Metrics(t, scale), c) == Metrics(t, scale).Width(c)
                <==> c < 0x10000 || AdvanceOf(t.glyphs, mistaken) == t.fallbackXAdvance)
  {
    hide Build, Find;
    BuiltGlyphs(glyphs, fallbackChar, c % 0x10000);
    BuildTab(glyphs, fallbackChar);
  }

  lemma BuiltForwards(glyphs: seq<Glyph>, fallbackChar: Wchar, scale: real)
    requires AllForwards(glyphs) && |glyphs| < NO_GLYPH && scale >= 0.0
    ensures Metrics(Build(glyphs, fallbackChar), scale).NeverBackwards()
  {
    hide Build, Find, AdvanceOf;
    var t := Build(glyphs, fallbackChar);
    BuildTab(glyphs, fallbackChar);
    WithTabForwards(glyphs);
    AdvanceForwards(t.glyphs, t.fallback);
    forall c: nat
      ensures Metrics(t, scale).Width(c) >= 0.0
    {
      if c < 0x10000 {
        BuiltGlyphs(glyphs, fallbackChar, c);
      }
    }
  }

  ghost predicate BasicMarks(g: Gauge, marks: seq<Mark>) {
    forall i :: 0 <= i < |marks| ==> marks[i].c < 0x10000 && marks[i].width == g.Width(marks[i].c)
  }

  /** Text without four-byte characters has none beyond 16 bits. */
  lemma {:induction false} RunBasic(g: Gauge, text: Text, wrapWidth: real, p: Pen)
    requires p.s <= |text| && forall i :: 0 <= i < |text| ==> text[i] < 0xF0
    ensures BasicMarks(g, Run(g, text, wrapWidth, p).marks)
    decreases Remaining(text, p)
  {
    hide StepOf, Remaining, Run;
    RunStep(g, text, wrapWidth, p);
    if p.s < |text| {
      StepGrows(g, text, wrapWidth, p);
      var move := StepOf(g, text, wrapWidth, p);
      if move.Put? {
        PutIsRead(g, text, wrapWidth, p);
        ReadBasic(text, move.mark.at);
      }
      if !move.Stop? {
        RunBasic(g, text, wrapWidth, move.next);
      }
    }
  }

  lemma PutIsRead(g: Gauge, text: Text, wrapWidth: real, p: Pen)
    requires p.s < |text| && StepOf(g, text, wrapWidth, p).Put?
    ensures var mark := StepOf(g, text, wrapWidth, p).mark;
            mark.at == p.s && mark.c == Read(text, mark.at).c
  {
    hide Read, WrapPosition, SkipBlanks, SkipLine;
  }

  lemma ReadBasic(text: Text, i: nat)
    requires i < |text| && text[i] < 0xF0
    ensures Read(text, i).c < 0x10000
  {}

  lemma BasicMarksAgree(glyphs: seq<Glyph>, fallbackChar: Wchar, m: Metrics, marks: seq<Mark>)
    requires AllForwards(glyphs) && |glyphs| < NO_GLYPH && m.scale > 0.0 && m.table == Build(glyphs, fallbackChar)
    requires BasicMarks(Measuring(m, None), marks)
    ensures DrawnAsMeasured(m, marks)
  {
    hide Build, DrawWidth, Find, AdvanceOf;
    forall i | 0 <= i < |marks|
      ensures DrawWidth(m, marks[i].c) == marks[i].width
    {
      WidthsAgreeIff(glyphs, fallbackChar, m.scale, marks[i].c);
    }
  }

  /** For such a text and a font as it is built, the glyphs are as wide as they were measured. */
  lemma WidthsAgreeOnMarks(glyphs: seq<Glyph>, fallbackChar: Wchar, m: Metrics, text: Text, wrapWidth: real)
    requires AllForwards(glyphs) && |glyphs| < NO_GLYPH && m.scale > 0.0 && m.table == Build(glyphs, fallbackChar)
    requires forall i :: 0 <= i < |text| ==> text[i] < 0xF0
    ensures DrawnAsMeasured(m, Run(Measuring(m, None), text, wrapWidth, START).marks)
  {
    hide Run, Build, DrawnAsMeasured;
    var g := Measuring(m, None);
    RunBasic(g, text, wrapWidth, START);
    BasicMarksAgree(glyphs, fallbackChar, m, Run(g, text, wrapWidth, START).marks);
  }

  /** For a font as it is built, measuring and drawing any text without four-byte characters is one and the
      same walk. */
  lemma BasicTextInLockstep(glyphs: seq<Glyph>, fallbackChar: Wchar, d: Gauge, text: Text, wrapWidth: real)
    requires AllForwards(glyphs) && |glyphs| < NO_GLYPH
    requires d.Drawing? && d.metrics.table == Build(glyphs, fallbackChar) && d.metrics.scale > 0.0
    requires forall i :: 0 <= i < |text| ==> text[i] < 0xF0
    requires ShowsLines(d, wrapWidth, Run(Measuring(d.metrics, None), text, wrapWidth, START).end.line)
    ensures Run(d, text, wrapWidth, START) == Run(Measuring(d.metrics, None), text, wrapWidth, START)
  {
    hide Run, Build, ShowsLines, DrawnAsMeasured;
    WidthsAgreeOnMarks(glyphs, fallbackChar, d.metrics, text, wrapWidth);
    LockstepIff(d.metrics, d, text, wrapWidth, START);
  }

  /** A line that begins is to be wrapped where the text's own words and blanks want it for this very width (all up to
      there fits, and there is the end of the text, the last end of a word before the overflow, or a cut through a
      word too wide for a line), or one byte on, if that is where it begins. */
  lemma LineIsWrappedWell(m: Metrics, text: Text, wrapWidth: real, p: Pen)
    requires p.s < |text| && p.eol.None? && p.x == 0.0 && wrapWidth > 0.0 && m.NeverBackwards()
    ensures var eol := Opened(m, text, wrapWidth, p).eol;
            eol.Some?
            && (WellWrapped(m, text, p.s, wrapWidth, eol.value)
                || (eol.value == p.s + 1 && WellWrapped(m, text, p.s, wrapWidth, p.s)))
  {
    hide WrapPosition, WellWrapped;
    WrapsWell(m, text, p.s, wrapWidth);
  }

  lemma ReadFourBytes()
    ensures Read([0xF0, 0x90, 0x81, 0x81], 0).c == 0x10041
  {
    hide Join, Read2, Read3;
    ReadJoined();
  }

  lemma ReadJoined()
    ensures Join(Join(Join(0xF0 % 8, 0x90), 0x81), 0x81) == 0x10041
  {}

  /** U+10041 is measured as the fallback glyph and drawn as the letter A. */
  lemma FourBytesOutOfStep()
    ensures var (letter, question) := (Glyph(0x41, 7.0, 0.0, 0.0, 0.0, 0.0, 0.0, 0.0, 0.0, 0.0),
                                       Glyph(0x3F, 3.0, 0.0, 0.0, 0.0, 0.0, 0.0, 0.0, 0.0, 0.0));
            var m := Metrics(Build([question, letter], 0x3F), 1.0);
            var c := Read([0xF0, 0x90, 0x81, 0x81], 0).c;
            c == 0x10041 && m.Width(c) == 3.0 && DrawWidth(m, c) == 7.0
  {
    hide Read, WithTab, TabSource, MaxCodepoint;
    var letter := Glyph(0x41, 7.0, 0.0, 0.0, 0.0, 0.0, 0.0, 0.0, 0.0, 0.0);
    var question := Glyph(0x3F, 3.0, 0.0, 0.0, 0.0, 0.0, 0.0, 0.0, 0.0, 0.0);
    var g := [question, letter];
    ReadFourBytes();
    LastGlyphIs(g, 0x41, 1);
    LastGlyphIs(g, 0x3F, 0);
    assert LastGlyph(g, SPACE).None?;
    NoSource(g);
    NoTab(g);
    BuildTab(g, 0x3F);
    FindsWhatSearchFinds(g, 0x3F, 0x41);
  }

  lemma NoSource(glyphs: seq<Glyph>)
    requires LastGlyph(glyphs, SPACE).None?
    ensures TabSource(glyphs, None).None?
  {}
}
