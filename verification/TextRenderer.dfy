/** RenderText: draws what the walk of `TextLayout` gives, into vertices and indices that were reserved for
    the longest case and of which the unused ones are given back. */
module TextRenderer {
  import opened Basics
  import opened Utf8
  import opened FontTable
  import opened WordWrap
  import opened TextLayout
  import opened FineClip
  import opened DrawState
  import opened CommandBuffer
  import opened Primitives
  import opened DrawListClass

  /** Where and how a text is drawn; `byZero` is what dividing by zero gives. */
  datatype Frame = Frame(pos: Vec2, lineHeight: real, clip: Rect, fineClip: bool, col: nat, byZero: real)

  /** (float)(int)r */
  function Truncated(r: real): real {
    if r >= 0.0 then r.Floor as real else -((-r).Floor as real)
  }

  /** Text starts at a whole pixel. */
  function Aligned(origin: Vec2, displayOffset: Vec2): Vec2 {
    Vec2(Truncated(origin.x) + displayOffset.x, Truncated(origin.y) + displayOffset.y)
  }

  /** Without rounding this is the size itself. */
  function LineHeight(fontSize: real, size: real): (h: real)
    requires fontSize != 0.0
    ensures h == size
  {
    fontSize * (size / fontSize)
  }

  // ----- From marks to quads

  function WholeQuad(glyph: Glyph, scale: real, x: real, y: real): Quad {
    Quad(Span(x + glyph.x0 * scale, x + glyph.x1 * scale, glyph.u0, glyph.u1),
         Span(y + glyph.y0 * scale, y + glyph.y1 * scale, glyph.v0, glyph.v1))
  }

  /** Spaces and tabs are taken to be empty glyphs. */
  function GlyphQuad(m: Metrics, f: Frame, c: nat, x: real, y: real): Option<Quad> {
    var glyph := GlyphOf(m.table, c);
    if glyph.None? || c == SPACE || c == TAB then None
    else
      var q := WholeQuad(glyph.value, m.scale, x, y);
      if !Touches(q, f.clip) then None
      else if f.fineClip then Clipped(q, f.clip, f.byZero)
      else Some(q)
  }

  function MarkQuad(m: Metrics, f: Frame, mark: Mark): Option<Quad> {
    GlyphQuad(m, f, mark.c, f.pos.x + mark.x, DrawGauge(m, f).LineTop(mark.line))
  }

  function OneOrNone<T>(o: Option<T>): (s: seq<T>)
    ensures |s| <= 1
  {
    if o.Some? then [o.value] else []
  }

  function Quads(m: Metrics, f: Frame, marks: seq<Mark>): (quads: seq<Quad>)
    ensures |quads| <= |marks|
  {
    if marks == [] then [] else OneOrNone(MarkQuad(m, f, marks[0])) + Quads(m, f, marks[1..])
  }

  // ----- From quads to buffers

  function QuadVertices(q: Quad, col: nat): (s: seq<Vertex>)
    ensures |s| == 4
  {
    [Vertex(Vec2(q.x.a1, q.y.a1), Vec2(q.x.t1, q.y.t1), col), Vertex(Vec2(q.x.a2, q.y.a1), Vec2(q.x.t2, q.y.t1), col),
     Vertex(Vec2(q.x.a2, q.y.a2), Vec2(q.x.t2, q.y.t2), col), Vertex(Vec2(q.x.a1, q.y.a2), Vec2(q.x.t1, q.y.t2), col)]
  }

  /** The corners of a drawn glyph go around a rectangle, and each has the texture coordinates that the whole
      glyph has at its position, whether the glyph was clipped or not. */
  lemma DrawnCornersKeepTexture(m: Metrics, f: Frame, c: nat, x: real, y: real)
    requires f.clip.Ordered() && GlyphQuad(m, f, c, x, y).Some?
    requires var whole := WholeQuad(GlyphOf(m.table, c).value, m.scale, x, y);
             whole.x.a1 < whole.x.a2 && whole.y.a1 < whole.y.a2
    ensures var whole := WholeQuad(GlyphOf(m.table, c).value, m.scale, x, y);
            var s := QuadVertices(GlyphQuad(m, f, c, x, y).value, f.col);
            && (forall v <- s ::
                  v.uv == Vec2(TextureAt(whole.x, v.pos.x), TextureAt(whole.y, v.pos.y)) && v.col == f.col)
            && s[0].pos.y == s[1].pos.y && s[1].pos.x == s[2].pos.x && s[2].pos.y == s[3].pos.y
               && s[3].pos.x == s[0].pos.x
            && s[0].pos.x <= s[1].pos.x && s[0].pos.y < s[3].pos.y
  {
    hide GlyphOf, Clipped, TextureAt;
    var whole := WholeQuad(GlyphOf(m.table, c).value, m.scale, x, y);
    TextureEnds(whole.x);
    TextureEnds(whole.y);
    ClippingKeepsTexture(whole, f.clip, f.byZero);
  }

  function TextVertices(quads: seq<Quad>, col: nat): (s: seq<Vertex>)
    ensures |s| == |quads| * 4
  {
    if quads == [] then [] else TextVertices(Front(quads), col) + QuadVertices(Last(quads), col)
  }

  function TextIndices(base: nat, n: nat): (s: seq<Index>)
    ensures |s| == n * 6
  {
    if n == 0 then [] else TextIndices(base, n - 1) + QuadIndices(base + (n - 1) * 4)
  }

  lemma QuadWithin(base: nat, at: nat)
    requires base <= at && at + 4 <= 0x10000
    ensures Within(QuadIndices(at), base, at + 4)
  {}

  lemma NothingWithin(base: nat)
    ensures Within([], base, base)
  {}

  /** Below the 16-bit limit the indices of a text stay among its own vertices. */
  lemma {:induction false} TextWithin(base: nat, n: nat)
    requires base + n * 4 <= 0x10000
    ensures Within(TextIndices(base, n), base, base + n * 4)
  {
    hide QuadIndices, Within;
    if n > 0 {
      TextWithin(base, n - 1);
      var (done, at) := (TextIndices(base, n - 1), base + (n - 1) * 4);
      QuadWithin(base, at);
      WithinWider(done, base, at, at + 4);
      WithinConcat(done, QuadIndices(at), base, at + 4);
    } else {
      NothingWithin(base);
    }
  }

  // ----- The whole drawing

  function DrawGauge(m: Metrics, f: Frame): Gauge {
    Drawing(m, f.pos.y, f.lineHeight, f.clip.y, f.clip.w)
  }

  /** The first line is skipped if it ends above the clip rectangle, all are if it starts below. */
  function DrawStart(g: Gauge, text: Text, wrapWidth: real): (p: Pen)
    ensures p.s <= |text|
  {
    if wrapWidth <= 0.0 && g.Above(0) then START.(s := SkipLine(text, 0)) else START
  }

  function DrawnMarks(g: Gauge, text: Text, wrapWidth: real): seq<Mark> {
    if g.Below(0) then [] else Run(g, text, wrapWidth, DrawStart(g, text, wrapWidth)).marks
  }

  /** Where the font reads its tables, it finds a glyph. */
  ghost predicate Sound(t: Table) {
    forall c: Wchar :: Find(t, c).Some? ==> Find(t, c).value < |t.glyphs|
  }

  /** The quads of what is still to be drawn complete those that are drawn already. */
  ghost predicate Leads(g: Gauge, f: Frame, text: Text, wrapWidth: real, p: Pen, done: seq<Quad>, all: seq<Quad>) {
    p.s <= |text| && done + Quads(g.metrics, f, Run(g, text, wrapWidth, p).marks) == all
  }

  lemma TextLeads(g: Gauge, f: Frame, text: Text, wrapWidth: real, p: Pen, done: seq<Quad>, all: seq<Quad>)
    ensures p.s == |text| && Leads(g, f, text, wrapWidth, p, done, all) ==> done == all
  {}

  lemma WrapLeads(g: Gauge, f: Frame, text: Text, wrapWidth: real, p: Pen, done: seq<Quad>, all: seq<Quad>)
    requires p.s < |text| && AtEol(Opened(g.metrics, text, wrapWidth, p)) && Leads(g, f, text, wrapWidth, p, done, all)
    ensures var q := Pen(SkipBlanks(text, p.s), 0.0, p.line + 1, None, TextLayout.Max(p.widest, p.x));
            Leads(g, f, text, wrapWidth, q, done, all) && Remaining(text, q) < Remaining(text, p)
  {
    hide Run, ReadStep, SkipBlanks, Quads;
    RunStep(g, text, wrapWidth, p);
  }

  lemma QuadsNext(m: Metrics, f: Frame, mark: Mark, marks: seq<Mark>)
    ensures Quads(m, f, [mark] + marks) == OneOrNone(MarkQuad(m, f, mark)) + Quads(m, f, marks)
  {
    hide MarkQuad;
    assert ([mark] + marks)[1..] == marks;
  }

  /** The step of drawing a character. */
  lemma ReadLeads(g: Gauge, f: Frame, text: Text, wrapWidth: real, p: Pen, done: seq<Quad>, all: seq<Quad>)
    requires p.s < |text| && !AtEol(Opened(g.metrics, text, wrapWidth, p))
             && Leads(g, f, text, wrapWidth, p, done, all) && g.Drawing?
    ensures var (o, r) := (Opened(g.metrics, text, wrapWidth, p), Read(text, p.s));
            var (next, w) := (o.(s := o.s + r.len), DrawWidth(g.metrics, r.c));
            if text[p.s] >= 0x80 && r.c == 0 then done == all
            else if r.c == NEWLINE then
              var q := Pen(next.s, 0.0, o.line + 1, o.eol, TextLayout.Max(o.widest, o.x));
              if g.Below(q.line) then done == all
              else
                var q' := if wrapWidth <= 0.0 && g.Above(q.line) then q.(s := SkipLine(text, q.s)) else q;
                Leads(g, f, text, wrapWidth, q', done, all) && p.s < q'.s
            else if r.c == RETURN then Leads(g, f, text, wrapWidth, next, done, all) && p.s < next.s
            else
              var q, quad := next.(x := o.x + w), MarkQuad(g.metrics, f, Mark(o.s, r.c, o.x, w, o.line));
              Leads(g, f, text, wrapWidth, q, done + OneOrNone(quad), all) && p.s < q.s
  {
    hide Run, Opened, Read, Quads, MarkQuad, DrawWidth, SkipLine, StepOf, Leads, OneOrNone;
    DrawReads(g, text, wrapWidth, p);
    LeadsOn(g, f, text, wrapWidth, p, done, all);
  }

  lemma LeadsOn(g: Gauge, f: Frame, text: Text, wrapWidth: real, p: Pen, done: seq<Quad>, all: seq<Quad>)
    requires p.s < |text| && Leads(g, f, text, wrapWidth, p, done, all)
    ensures match StepOf(g, text, wrapWidth, p)
            case Stop(_) => done == all
            case Go(next) => Leads(g, f, text, wrapWidth, next, done, all)
            case Put(mark, next) =>
              Leads(g, f, text, wrapWidth, next, done + OneOrNone(MarkQuad(g.metrics, f, mark)), all)
  {
    hide Run, StepOf, MarkQuad, OneOrNone;
    RunStep(g, text, wrapWidth, p);
    var move := StepOf(g, text, wrapWidth, p);
    if move.Put? {
      var rest := Run(g, text, wrapWidth, move.next).marks;
      QuadsNext(g.metrics, f, move.mark, rest);
      Associative(done, OneOrNone(MarkQuad(g.metrics, f, move.mark)), Quads(g.metrics, f, rest));
    }
  }

  lemma DrawReads(g: Gauge, text: Text, wrapWidth: real, p: Pen)
    requires p.s < |text| && !AtEol(Opened(g.metrics, text, wrapWidth, p)) && g.Drawing?
    ensures var (o, r, move) := (Opened(g.metrics, text, wrapWidth, p), Read(text, p.s), StepOf(g, text, wrapWidth, p));
            var (next, w) := (o.(s := o.s + r.len), DrawWidth(g.metrics, r.c));
            if text[p.s] >= 0x80 && r.c == 0 then move == Stop(next)
            else if r.c == NEWLINE then
              var q := Pen(next.s, 0.0, o.line + 1, o.eol, TextLayout.Max(o.widest, o.x));
              if g.Below(q.line) then move == Stop(q)
              else
                var q' := if wrapWidth <= 0.0 && g.Above(q.line) then q.(s := SkipLine(text, q.s)) else q;
                move == Go(q') && p.s < q'.s <= |text|
            else if r.c == RETURN then move == Go(next) && p.s < next.s <= |text|
            else move == Put(Mark(o.s, r.c, o.x, w, o.line), next.(x := o.x + w)) && p.s < next.s <= |text|
  {
    hide WrapPosition, Read, DrawWidth, SkipLine;
  }

  // ----- The code

  /** The quads `done` have been written behind the buffers' old contents. */
  ghost predicate Written(idxs: seq<Index>, vtxs: seq<Vertex>, oldIdxs: seq<Index>, oldVtxs: seq<Vertex>, base: nat,
                          done: seq<Quad>, col: nat)
  {
    && |oldIdxs| + |done| * 6 <= |idxs| && |oldVtxs| + |done| * 4 <= |vtxs|
    && idxs[..|oldIdxs| + |done| * 6] == oldIdxs + TextIndices(base, |done|)
    && vtxs[..|oldVtxs| + |done| * 4] == oldVtxs + TextVertices(done, col)
  }

  lemma WrittenNothing(idxs: seq<Index>, vtxs: seq<Vertex>, oldIdxs: seq<Index>, oldVtxs: seq<Vertex>, base: nat,
                       col: nat)
    requires |oldIdxs| <= |idxs| && |oldVtxs| <= |vtxs| && idxs[..|oldIdxs|] == oldIdxs && vtxs[..|oldVtxs|] == oldVtxs
    ensures Written(idxs, vtxs, oldIdxs, oldVtxs, base, [], col)
  {}

  lemma WrittenNext(idxs: seq<Index>, vtxs: seq<Vertex>, oldIdxs: seq<Index>, oldVtxs: seq<Vertex>, base: nat,
                    done: seq<Quad>, q: Quad, col: nat)
    requires Written(idxs, vtxs, oldIdxs, oldVtxs, base, done, col)
    requires |oldIdxs| + |done| * 6 + 6 <= |idxs| && |oldVtxs| + |done| * 4 + 4 <= |vtxs|
    ensures Written(Spliced(idxs, |oldIdxs| + |done| * 6, QuadIndices(base + |done| * 4)),
                    Spliced(vtxs, |oldVtxs| + |done| * 4, QuadVertices(q, col)), oldIdxs, oldVtxs, base, done
                      + [q], col)
  {
    hide QuadIndices, QuadVertices;
    var more := done + [q];
    assert Front(more) == done && Last(more) == q;
    TextNext(base, |done|);
    var (i, v) := (|oldIdxs| + |done| * 6, |oldVtxs| + |done| * 4);
    Associative(oldIdxs, TextIndices(base, |done|), QuadIndices(base + |done| * 4));
    Associative(oldVtxs, TextVertices(done, col), QuadVertices(q, col));
  }

  lemma TextNext(base: nat, n: nat)
    ensures TextIndices(base, n + 1) == TextIndices(base, n) + QuadIndices(base + n * 4)
  {}

  method SkipLineFrom(text: Text, from: nat) returns (s: nat)
    requires from <= |text|
    ensures s == SkipLine(text, from)
  {
    s := from;
    while s < |text| && text[s] != NEWLINE
      invariant from <= s <= |text| && SkipLine(text, s) == SkipLine(text, from)
    {
      s := s + 1;
    }
  }

  /** One character: its width, and its quad written at the end of what has been written. */
  method DrawChar(font: Font, f: Frame, scale: real, c: nat, x: real, y: real, drawList: DrawList,
                  ghost oldIdxs: seq<Index>, ghost oldVtxs: seq<Vertex>, ghost base: nat, ghost done: seq<Quad>,
                  idxWrite: nat, vtxWrite: nat, vtxCurrentIdx: nat)
      returns (charWidth: real, idxWritten: nat, vtxWritten: nat, nextVtxIdx: nat)
    requires Sound(font.View())
    requires Written(drawList.idxBuffer, drawList.vtxBuffer, oldIdxs, oldVtxs, base, done, f.col)
    requires idxWrite == |oldIdxs| + |done| * 6 && vtxWrite == |oldVtxs| + |done| * 4
             && vtxCurrentIdx == base + |done| * 4
    requires idxWrite + 6 <= |drawList.idxBuffer| && vtxWrite + 4 <= |drawList.vtxBuffer|
    modifies drawList`idxBuffer, drawList`vtxBuffer
    ensures charWidth == DrawWidth(Metrics(font.View(), scale), c)
    ensures |drawList.idxBuffer| == old(|drawList.idxBuffer|) && |drawList.vtxBuffer| == old(|drawList.vtxBuffer|)
    ensures var more := done + OneOrNone(GlyphQuad(Metrics(font.View(), scale), f, c, x, y));
            && Written(drawList.idxBuffer, drawList.vtxBuffer, oldIdxs, oldVtxs, base, more, f.col)
            && idxWritten == |oldIdxs| + |more| * 6 && vtxWritten == |oldVtxs| + |more| * 4
               && nextVtxIdx == base + |more| * 4
  {
    hide Written, QuadIndices, Clipped, Touches, Find;
    charWidth, idxWritten, vtxWritten, nextVtxIdx := 0.0, idxWrite, vtxWrite, vtxCurrentIdx;
    assert done + [] == done;
    var low: Wchar := c % 0x10000;
    var i := font.FindGlyph(low);
    if i.Some? {
      var glyph := font.glyphs[i.value];
      charWidth := glyph.xAdvance * scale;
      if c != SPACE && c != TAB {
        var q := WholeQuad(glyph, scale, x, y);
        if Touches(q, f.clip) {
          if f.fineClip {
            var clipped := Clipped(q, f.clip, f.byZero);
            if clipped.None? {
              return;
            }
            q := clipped.value;
          }
          WrittenNext(drawList.idxBuffer, drawList.vtxBuffer, oldIdxs, oldVtxs, base, done, q, f.col);
          drawList.idxBuffer := Spliced(drawList.idxBuffer, idxWrite, QuadIndices(vtxCurrentIdx));
          drawList.vtxBuffer := Spliced(drawList.vtxBuffer, vtxWrite, QuadVertices(q, f.col));
          idxWritten, vtxWritten, nextVtxIdx := idxWrite + 6, vtxWrite + 4, vtxCurrentIdx + 4;
        }
      }
    }
  }

  /** What RenderText is to draw. */
  function TextQuads(m: Metrics, f: Frame, text: Text, wrapWidth: real): seq<Quad> {
    Quads(m, f, DrawnMarks(DrawGauge(m, f), text, wrapWidth))
  }

  /** The drawing loop, with its write positions in local variables. */
  method WriteText(font: Font, f: Frame, scale: real, drawList: DrawList, text: Text, wrapWidth: real, start: nat,
                   ghost quads: seq<Quad>)
      returns (idxWrite: nat, vtxWrite: nat)
    requires Sound(font.View()) && start <= |text|
    requires var g := DrawGauge(Metrics(font.View(), scale), f);
             Leads(g, f, text, wrapWidth, START.(s := start), [], quads)
    requires drawList.idxWrite + (|text| - start) * 6 == |drawList.idxBuffer|
    requires drawList.vtxWrite + (|text| - start) * 4 == |drawList.vtxBuffer|
    modifies drawList`idxBuffer, drawList`vtxBuffer
    ensures |drawList.idxBuffer| == old(|drawList.idxBuffer|) && |drawList.vtxBuffer| == old(|drawList.vtxBuffer|)
    ensures Written(drawList.idxBuffer, drawList.vtxBuffer, old(drawList.idxBuffer)[..drawList.idxWrite],
                    old(drawList.vtxBuffer)[..drawList.vtxWrite], drawList.vtxCurrentIdx, quads, f.col)
    ensures idxWrite == drawList.idxWrite + |quads| * 6 && vtxWrite == drawList.vtxWrite + |quads| * 4
  {
    hide Run, Written, Leads, Sound, SkipLine, SkipBlanks, IsSpace, WrapPosition, Read, MarkQuad, GlyphQuad, DrawWidth,
         Remaining, OneOrNone;
    ghost var m := Metrics(font.View(), scale);
    ghost var g := DrawGauge(m, f);
    ghost var oldIdxs, oldVtxs := drawList.idxBuffer[..drawList.idxWrite], drawList.vtxBuffer[..drawList.vtxWrite];
    ghost var base := drawList.vtxCurrentIdx;
    ghost var p, done := START.(s := start), [];
    idxWrite, vtxWrite := drawList.idxWrite, drawList.vtxWrite;
    var vtxCurrentIdx := drawList.vtxCurrentIdx;
    var x, y := f.pos.x, f.pos.y;
    var wordWrapEol: Option<nat> := None;
    var s := start;
    WrittenNothing(drawList.idxBuffer, drawList.vtxBuffer, oldIdxs, oldVtxs, base, f.col);
    FirstLine(f.pos.y, f.lineHeight);
    while s < |text|
      invariant p.s == s <= |text| && x == f.pos.x + p.x && y == g.LineTop(p.line) && p.eol == wordWrapEol
      invariant wordWrapEol.Some? ==> wrapWidth > 0.0
      invariant Leads(g, f, text, wrapWidth, p, done, quads)
      invariant |drawList.idxBuffer| == old(|drawList.idxBuffer|) && |drawList.vtxBuffer| == old(|drawList.vtxBuffer|)
      invariant Written(drawList.idxBuffer, drawList.vtxBuffer, oldIdxs, oldVtxs, base, done, f.col)
      invariant idxWrite == |oldIdxs| + |done| * 6 && vtxWrite == |oldVtxs| + |done| * 4
                && vtxCurrentIdx == base + |done| * 4
      invariant |done| + start <= s
      decreases |text| - s, if wordWrapEol.Some? then 1 else 0
    {
      NextLine(g, p.line);
      if wrapWidth > 0.0 {
        if wordWrapEol.None? {
          var eol := CalcWordWrapPositionA(font, scale, text, s, wrapWidth - (x - f.pos.x));
          wordWrapEol := Some(if eol == s then eol + 1 else eol);
        }
        if s >= wordWrapEol.value {
          WrapLeads(g, f, text, wrapWidth, p, done, quads);
          x := f.pos.x;
          y := y + f.lineHeight;
          wordWrapEol := None;
          s := SkipBlanksFrom(text, s);
          p := Pen(s, 0.0, p.line + 1, None, TextLayout.Max(p.widest, p.x));
          continue;
        }
      }
      ReadLeads(g, f, text, wrapWidth, p, done, quads);
      p := Opened(m, text, wrapWidth, p);
      var at := s;
      var r := Read(text, s);
      var c := r.c;
      s := s + r.len;
      if text[at] >= 0x80 && c == 0 {
        break;
      }
      if c == NEWLINE {
        x := f.pos.x;
        y := y + f.lineHeight;
        p := Pen(s, 0.0, p.line + 1, wordWrapEol, TextLayout.Max(p.widest, p.x));
        if y > f.clip.w {
          break;
        }
        if wrapWidth <= 0.0 && y + f.lineHeight < f.clip.y {
          s := SkipLineFrom(text, s);
        }
        p := p.(s := s);
        continue;
      }
      if c == RETURN {
        p := p.(s := s);
        continue;
      }
      var charWidth;
      ghost var quad := GlyphQuad(m, f, c, x, y);
      MarkIsGlyph(m, f, Mark(at, c, p.x, DrawWidth(m, c), p.line), x, y);
      charWidth, idxWrite, vtxWrite, vtxCurrentIdx :=
        DrawChar(font, f, scale, c, x, y, drawList, oldIdxs, oldVtxs, base, done, idxWrite, vtxWrite, vtxCurrentIdx);
      x := x + charWidth;
      p := p.(s := s, x := p.x + charWidth);
      done := done + OneOrNone(quad);
    }
    TextLeads(g, f, text, wrapWidth, p, done, quads);
  }

  lemma FirstLine(y: real, lineHeight: real)
    ensures y + 0 as real * lineHeight == y
  {}

  lemma TextStarts(m: Metrics, f: Frame, text: Text, wrapWidth: real)
    ensures var skips := wrapWidth <= 0.0 && f.pos.y + f.lineHeight < f.clip.y;
            if f.pos.y > f.clip.w then TextQuads(m, f, text, wrapWidth) == []
            else
              Leads(DrawGauge(m, f), f, text, wrapWidth, START.(s := if skips then SkipLine(text, 0) else 0), [],
                    TextQuads(m, f, text, wrapWidth))
  {
    hide Run, SkipLine;
    FirstLine(f.pos.y, f.lineHeight);
  }

  lemma NothingDrawn(st: State, base: nat, vtxs: seq<Vertex>, col: nat)
    requires st.live.cmds != []
    ensures Drawn(st, TextIndices(base, 0)) == st && vtxs + TextVertices([], col) == vtxs
  {
    var cmds := st.live.cmds;
    assert Front(cmds) + [Last(cmds).(elemCount := Last(cmds).elemCount + 0)] == cmds;
    assert st.live.idxs + [] == st.live.idxs;
  }

  lemma MarkIsGlyph(m: Metrics, f: Frame, mark: Mark, x: real, y: real)
    requires x == f.pos.x + mark.x && y == DrawGauge(m, f).LineTop(mark.line)
    ensures MarkQuad(m, f, mark) == GlyphQuad(m, f, mark.c, x, y)
  {
    hide GlyphQuad;
  }

  lemma NextLine(g: Gauge, line: nat)
    requires g.Drawing?
    ensures g.LineTop(line + 1) == g.LineTop(line) + g.lineHeight
  {}

  /** The text becomes the quads of its glyphs: their indices and vertices are appended, everything reserved
      beyond them is given back. */
  method RenderText(font: Font, fontSize: real, displayOffset: Vec2, drawList: DrawList, size: real, origin: Vec2,
                    col: nat,
                    clip: Rect, text: Text, wrapWidth: real, fineClip: bool, byZero: real)
    requires fontSize != 0.0 && Sound(font.View()) && drawList.cmdBuffer != []
    modifies drawList`cmdBuffer, drawList`idxBuffer, drawList`vtxBuffer, drawList`idxWrite, drawList`vtxWrite,
      drawList`vtxCurrentIdx
    ensures var f := Frame(Aligned(origin, displayOffset), LineHeight(fontSize, size), clip, fineClip, col, byZero);
            var quads := TextQuads(Metrics(font.View(), size / fontSize), f, text, wrapWidth);
            && (old(drawList.Settled()) || f.pos.y <= f.clip.w ==> drawList.Settled())
            && drawList.View() == Drawn(old(drawList.View()), TextIndices(old(drawList.vtxCurrentIdx), |quads|))
            && drawList.vtxBuffer == old(drawList.vtxBuffer) + TextVertices(quads, col)
  {
    hide Drawn, TextIndices, TextVertices, Truncated, Sound, TextQuads;
    var pos := Vec2(Truncated(origin.x) + displayOffset.x, Truncated(origin.y) + displayOffset.y);
    var scale := size / fontSize;
    var lineHeight := fontSize * scale;
    assert lineHeight == LineHeight(fontSize, size);
    RenderFrame(font, Frame(pos, lineHeight, clip, fineClip, col, byZero), scale, drawList, text, wrapWidth);
  }

  method RenderFrame(font: Font, f: Frame, scale: real, drawList: DrawList, text: Text, wrapWidth: real)
    requires Sound(font.View()) && drawList.cmdBuffer != []
    modifies drawList`cmdBuffer, drawList`idxBuffer, drawList`vtxBuffer, drawList`idxWrite, drawList`vtxWrite,
      drawList`vtxCurrentIdx
    ensures var quads := TextQuads(Metrics(font.View(), scale), f, text, wrapWidth);
            && (old(drawList.Settled()) || f.pos.y <= f.clip.w ==> drawList.Settled())
            && drawList.View() == Drawn(old(drawList.View()), TextIndices(old(drawList.vtxCurrentIdx), |quads|))
            && drawList.vtxBuffer == old(drawList.vtxBuffer) + TextVertices(quads, f.col)
  {
    hide Drawn, TextIndices, TextVertices, Written, Sound, Leads, SkipLine, TextQuads, DrawGauge;
    ghost var m := Metrics(font.View(), scale);
    ghost var quads := TextQuads(m, f, text, wrapWidth);
    ghost var base := drawList.vtxCurrentIdx;
    TextStarts(m, f, text, wrapWidth);
    if f.pos.y > f.clip.w {
      NothingDrawn(drawList.View(), base, drawList.vtxBuffer, f.col);
      return;
    }
    var s: nat := 0;
    if wrapWidth <= 0.0 && f.pos.y + f.lineHeight < f.clip.y {
      s := SkipLineFrom(text, 0);
    }
    var vtxCountMax, idxCountMax := (|text| - s) * 4, (|text| - s) * 6;
    var idxExpectedSize := |drawList.idxBuffer| + idxCountMax;
    drawList.PrimReserve(idxCountMax, vtxCountMax);
    var idxWrite, vtxWrite := WriteText(font, f, scale, drawList, text, wrapWidth, s, quads);
    WrittenAll(drawList.idxBuffer, drawList.vtxBuffer, old(drawList.idxBuffer), old(drawList.vtxBuffer), base, quads,
      f.col);
    GiveBack(drawList, idxExpectedSize, idxWrite, vtxWrite);
    drawList.ReserveWritten(TextIndices(base, |quads|));
  }

  lemma WrittenAll(idxs: seq<Index>, vtxs: seq<Vertex>, oldIdxs: seq<Index>, oldVtxs: seq<Vertex>, base: nat,
                   quads: seq<Quad>, col: nat)
    requires Written(idxs, vtxs, oldIdxs, oldVtxs, base, quads, col)
    ensures |oldIdxs| + |quads| * 6 <= |idxs| && |oldVtxs| + |quads| * 4 <= |vtxs|
    ensures idxs[..|oldIdxs| + |quads| * 6] == oldIdxs + TextIndices(base, |quads|)
    ensures vtxs[..|oldVtxs| + |quads| * 4] == oldVtxs + TextVertices(quads, col)
  {}

  method GiveBack(drawList: DrawList, idxExpectedSize: nat, idxWrite: nat, vtxWrite: nat)
    requires drawList.cmdBuffer != [] && idxWrite <= |drawList.idxBuffer| && vtxWrite <= |drawList.vtxBuffer|
    requires 0 <= idxExpectedSize - idxWrite <= Last(drawList.cmdBuffer).elemCount
    modifies drawList`cmdBuffer, drawList`idxBuffer, drawList`vtxBuffer, drawList`idxWrite, drawList`vtxWrite,
      drawList`vtxCurrentIdx
    ensures var last := Last(old(drawList.cmdBuffer));
            drawList.cmdBuffer == Front(old(drawList.cmdBuffer))
              + [last.(elemCount := last.elemCount - (idxExpectedSize - idxWrite))]
    ensures drawList.idxBuffer == old(drawList.idxBuffer)[..idxWrite]
            && drawList.vtxBuffer == old(drawList.vtxBuffer)[..vtxWrite]
    ensures drawList.Settled()
  {
    drawList.vtxBuffer := Resize(drawList.vtxBuffer, vtxWrite);
    drawList.idxBuffer := Resize(drawList.idxBuffer, idxWrite);
    var last := |drawList.cmdBuffer| - 1;
    drawList.cmdBuffer := drawList.cmdBuffer[last := drawList.cmdBuffer[last].(elemCount :=
      drawList.cmdBuffer[last].elemCount - (idxExpectedSize - |drawList.idxBuffer|))];
    drawList.vtxWrite, drawList.idxWrite, drawList.vtxCurrentIdx := vtxWrite, idxWrite, |drawList.vtxBuffer|;
  }
}
