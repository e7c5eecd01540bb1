/** The box that CalcTextSizeA measures is tight: not wider than the text, and not a line too high. */
module TightBox {
  import opened Basics
  import opened Utf8
  import opened FontTable
  import opened WordWrap
  import opened TextLayout
  import opened Lockstep

  // ----- Height

  /** How many line ends the walk passes: where it wraps a line, and where it reads a newline. */
  function LineEnds(g: Gauge, text: Text, wrapWidth: real, p: Pen): nat
    requires p.s <= |text|
    decreases Remaining(text, p)
  {
    if p.s == |text| then 0
    else
      var here := if AtEol(Opened(g.metrics, text, wrapWidth, p)) || Read(text, p.s).c == 10 then 1 else 0;
      var move := StepOf(g, text, wrapWidth, p);
      if move.Stop? then 0 else here + LineEnds(g, text, wrapWidth, move.next)
  }

  /** The widths of the characters on one line, put together. */
  function WidthOn(marks: seq<Mark>, line: nat): real {
    if marks == [] then 0.0
    else (if marks[0].line == line then marks[0].width else 0.0) + WidthOn(marks[1..], line)
  }

  lemma StepLines(m: Metrics, maxWidth: Option<real>, text: Text, wrapWidth: real, p: Pen)
    requires p.s < |text|
    ensures var ends := AtEol(Opened(m, text, wrapWidth, p)) || Read(text, p.s).c == 10;
            match StepOf(Measuring(m, maxWidth), text, wrapWidth, p)
            case Stop(end) => end.line == p.line && end.x == p.x && end.widest == p.widest
            case Go(next) =>
              if ends then next.line == p.line + 1 && next.x == 0.0 && next.widest == Max(p.widest, p.x)
              else next.line == p.line && next.x == p.x && next.widest == p.widest
            case Put(mark, next) =>
              && !ends && mark.line == p.line == next.line && mark.x == p.x && next.x == p.x + mark.width
              && next.widest == p.widest
  {
    hide Read, WrapPosition, SkipBlanks, SkipLine, Advance;
  }

  lemma WidthOnNext(mark: Mark, marks: seq<Mark>, line: nat)
    ensures WidthOn([mark] + marks, line) == (if mark.line == line then mark.width else 0.0) + WidthOn(marks, line)
  {
    assert ([mark] + marks)[1..] == marks;
  }

  lemma {:induction false} EndOfWalk(m: Metrics, maxWidth: Option<real>, text: Text, wrapWidth: real, p: Pen)
    requires p.s <= |text|
    ensures var (g, l) := (Measuring(m, maxWidth), Run(Measuring(m, maxWidth), text, wrapWidth, p));
            && l.end.line == p.line + LineEnds(g, text, wrapWidth, p)
            && l.end.x == (if l.end.line == p.line then p.x else 0.0) + WidthOn(l.marks, l.end.line)
    decreases Remaining(text, p)
  {
    hide StepOf, Remaining, Run, Opened, AtEol, Read;
    var g := Measuring(m, maxWidth);
    RunStep(g, text, wrapWidth, p);
    if p.s < |text| {
      StepLines(m, maxWidth, text, wrapWidth, p);
      var move := StepOf(g, text, wrapWidth, p);
      if !move.Stop? {
        EndOfWalk(m, maxWidth, text, wrapWidth, move.next);
        if move.Put? {
          var rest := Run(g, text, wrapWidth, move.next);
          WidthOnNext(move.mark, rest.marks, rest.end.line);
        }
      }
    }
  }

  /** The height is that of the line ends passed, and of one line more if the last one has width or is the only one. */
  lemma HeightIsTight(m: Metrics, maxWidth: Option<real>, text: Text, wrapWidth: real, size: real)
    ensures var (g, l) := (Measuring(m, maxWidth), Run(Measuring(m, maxWidth), text, wrapWidth, START));
            var n := LineEnds(g, text, wrapWidth, START);
            HeightOf(size, LinesOfLayout(l))
            == size * (n + if n == 0 || WidthOn(l.marks, n) > 0.0 then 1 else 0) as real
  {
    hide Run, LineEnds, WidthOn;
    EndOfWalk(m, maxWidth, text, wrapWidth, START);
  }

  // ----- Width

  /** Some character ends at this distance from the start of its line. */
  ghost predicate EndsAt(marks: seq<Mark>, x: real) {
    exists i :: 0 <= i < |marks| && marks[i].x + marks[i].width == x
  }

  lemma EndsAtNext(mark: Mark, marks: seq<Mark>, x: real)
    ensures EndsAt([mark] + marks, x) <==> mark.x + mark.width == x || EndsAt(marks, x)
  {
    var all := [mark] + marks;
    assert all[0] == mark;
    if i :| 0 <= i < |marks| && marks[i].x + marks[i].width == x {
      assert all[i + 1] == marks[i];
    }
  }

  lemma {:induction false} WidestEnds(m: Metrics, maxWidth: Option<real>, text: Text, wrapWidth: real, p: Pen)
    requires p.s <= |text|
    ensures var l := Run(Measuring(m, maxWidth), text, wrapWidth, p);
            && (l.end.x == 0.0 || l.end.x == p.x || EndsAt(l.marks, l.end.x))
            && (l.end.widest == p.widest || l.end.widest == p.x || l.end.widest == 0.0 || EndsAt(l.marks, l.end.widest))
    decreases Remaining(text, p)
  {
    hide StepOf, Remaining, Run, Opened, AtEol, Read, EndsAt;
    var g := Measuring(m, maxWidth);
    RunStep(g, text, wrapWidth, p);
    if p.s < |text| {
      StepLines(m, maxWidth, text, wrapWidth, p);
      var move := StepOf(g, text, wrapWidth, p);
      if !move.Stop? {
        WidestEnds(m, maxWidth, text, wrapWidth, move.next);
        if move.Put? {
          var rest := Run(g, text, wrapWidth, move.next);
          EndsAtNext(move.mark, rest.marks, rest.end.x);
          EndsAtNext(move.mark, rest.marks, rest.end.widest);
        }
      }
    }
  }

  lemma {:induction false} WidestCovers(m: Metrics, maxWidth: Option<real>, text: Text, wrapWidth: real, p: Pen)
    requires p.s <= |text| && m.NeverBackwards()
    ensures var l := Run(Measuring(m, maxWidth), text, wrapWidth, p);
            var width := Max(l.end.widest, l.end.x);
            && p.widest <= l.end.widest && p.x <= width
            && forall i :: 0 <= i < |l.marks| ==> l.marks[i].x + l.marks[i].width <= width
    decreases Remaining(text, p)
  {
    hide StepOf, Remaining, Run, Opened, AtEol, Read;
    var g := Measuring(m, maxWidth);
    RunStep(g, text, wrapWidth, p);
    if p.s < |text| {
      StepLines(m, maxWidth, text, wrapWidth, p);
      StepGrows(g, text, wrapWidth, p);
      var move := StepOf(g, text, wrapWidth, p);
      if !move.Stop? {
        WidestCovers(m, maxWidth, text, wrapWidth, move.next);
        if move.Put? {
          assert m.Width(move.mark.c) >= 0.0;
        }
      }
    }
  }

  /** The width is 0, or some character ends right there; and if no advance is negative none ends farther right. */
  lemma WidthIsTight(m: Metrics, maxWidth: Option<real>, text: Text, wrapWidth: real)
    ensures var l := Run(Measuring(m, maxWidth), text, wrapWidth, START);
            var width := WidthOfLayout(l);
            && width >= 0.0
            && (width == 0.0 || exists i :: 0 <= i < |l.marks| && l.marks[i].x + l.marks[i].width == width)
            && (m.NeverBackwards() ==>
                  forall i :: 0 <= i < |l.marks| ==> l.marks[i].x + l.marks[i].width <= width)
  {
    hide Run;
    WidestEnds(m, maxWidth, text, wrapWidth, START);
    WidestNotNegative(m, maxWidth, text, wrapWidth, START);
    if m.NeverBackwards() {
      WidestCovers(m, maxWidth, text, wrapWidth, START);
    }
  }

  lemma {:induction false} WidestNotNegative(m: Metrics, maxWidth: Option<real>, text: Text, wrapWidth: real, p: Pen)
    requires p.s <= |text| && p.widest >= 0.0
    ensures Run(Measuring(m, maxWidth), text, wrapWidth, p).end.widest >= 0.0
    decreases Remaining(text, p)
  {
    hide StepOf, Remaining, Run, Opened, AtEol, Read;
    var g := Measuring(m, maxWidth);
    RunStep(g, text, wrapWidth, p);
    if p.s < |text| {
      StepLines(m, maxWidth, text, wrapWidth, p);
      var move := StepOf(g, text, wrapWidth, p);
      if !move.Stop? {
        WidestNotNegative(m, maxWidth, text, wrapWidth, move.next);
      }
    }
  }
}
