/** What RenderText leaves in the draw list, in positions: which characters get a quad, where, and with which
    vertices. */
module DrawnText {
  import opened Basics
  import opened Utf8
  import opened FontTable
  import opened WordWrap
  import opened TextLayout
  import opened PlainText
  import opened FineClip
  import opened DrawState
  import CommandBuffer
  import opened Primitives
  import opened DrawListClass
  import opened TextRenderer

  // ----- Picking what is there

  function Somes<T>(s: seq<Option<T>>): seq<T> {
    if s == [] then [] else Somes(Front(s)) + OneOrNone(Last(s))
  }

  ghost predicate Rising(at: seq<nat>, n: nat) {
    && (forall i :: 0 <= i < |at| ==> at[i] < n)
    && (forall i, j :: 0 <= i < j < |at| ==> at[i] < at[j])
  }

  /** The elements at `at` are those that are there, in order. */
  ghost predicate Picks<T>(s: seq<Option<T>>, picked: seq<T>, at: seq<nat>) {
    && |at| == |picked| && Rising(at, |s|)
    && (forall i :: 0 <= i < |s| && s[i].Some? ==> i in at)
    && (forall j :: 0 <= j < |at| ==> s[at[j]] == Some(picked[j]))
  }

  lemma PicksNone<T>(s: seq<Option<T>>, picked: seq<T>, at: seq<nat>)
    requires Picks(s, picked, at)
    ensures Picks(s + [None], picked, at)
  {
    var all := s + [None];
    assert |all| == |s| + 1 && forall i :: 0 <= i < |s| ==> all[i] == s[i];
  }

  lemma PicksSome<T>(s: seq<Option<T>>, v: T, picked: seq<T>, at: seq<nat>)
    requires Picks(s, picked, at)
    ensures Picks(s + [Some(v)], picked + [v], at + [|s|])
  {
    var (all, more, now) := (s + [Some(v)], at + [|s|], picked + [v]);
    assert |all| == |s| + 1 && forall i :: 0 <= i < |s| ==> all[i] == s[i];
    assert |more| == |at| + 1 && forall j :: 0 <= j < |at| ==> more[j] == at[j] && now[j] == picked[j];
    RisingSnoc(at, |s|);
    forall i | 0 <= i < |all| && all[i].Some?
      ensures i in more
    {
      if i < |s| {
        assert s[i].Some? && i in at;
      }
    }
  }

  lemma RisingSnoc(at: seq<nat>, n: nat)
    requires Rising(at, n)
    ensures Rising(at + [n], n + 1)
  {}

  lemma {:induction false} SomesPicked<T>(s: seq<Option<T>>) returns (at: seq<nat>)
    ensures Picks(s, Somes(s), at)
  {
    hide Picks, Rising;
    if s == [] {
      at := [];
      NothingPicked<T>();
    } else {
      at := SomesPicked(Front(s));
      assert s == Front(s) + [Last(s)];
      if Last(s).Some? {
        PicksSome(Front(s), Last(s).value, Somes(Front(s)), at);
        at := at + [|s| - 1];
      } else {
        PicksNone(Front(s), Somes(Front(s)), at);
        assert Somes(Front(s)) + [] == Somes(Front(s));
      }
    }
  }

  lemma NothingPicked<T>()
    ensures Picks<T>([], [], [])
  {}

  lemma {:induction false} SomesCons<T>(o: Option<T>, s: seq<Option<T>>)
    ensures Somes([o] + s) == OneOrNone(o) + Somes(s)
    decreases |s|
  {
    hide OneOrNone;
    if s == [] {
      assert [o] + s == [o] && Front([o]) == [];
      assert [] + OneOrNone(o) == OneOrNone(o) + [];
    } else {
      assert Front([o] + s) == [o] + Front(s) && Last([o] + s) == Last(s);
      SomesCons(o, Front(s));
      CommandBuffer.Associative(OneOrNone(o), Somes(Front(s)), OneOrNone(Last(s)));
    }
  }

  // ----- Where a line is

  function LineY(f: Frame, line: nat): real {
    f.pos.y + line as real * f.lineHeight
  }

  lemma LineTopIsY(m: Metrics, f: Frame, line: nat)
    ensures DrawGauge(m, f).LineTop(line) == LineY(f, line)
    ensures Shown(DrawGauge(m, f))(line) <==> LineY(f, line) <= f.clip.w && f.clip.y <= LineY(f, line) + f.lineHeight
  {}

  // ----- A glyph with the pen at (x, y)

  /** The edges of a glyph drawn with the pen at (x, y). */
  datatype Box = Box(x1: real, x2: real, y1: real, y2: real)

  function BoxOf(g: Glyph, scale: real, x: real, y: real): Box {
    Box(x + g.x0 * scale, x + g.x1 * scale, y + g.y0 * scale, y + g.y1 * scale)
  }

  /** It is neither space nor TAB, and reaches the clip rectangle from left and right; with fine clipping, what the
      rectangle leaves of its height is not empty. */
  predicate Reaches(m: Metrics, f: Frame, c: nat, x: real, y: real) {
    && c != 0x20 && c != 0x09 && GlyphOf(m.table, c).Some?
    && var b := BoxOf(GlyphOf(m.table, c).value, m.scale, x, y);
       && b.x1 <= f.clip.z && f.clip.x <= b.x2
       && (f.fineClip ==> b.y1 < b.y2 && b.y1 < f.clip.w && f.clip.y < b.y2 && f.clip.y < f.clip.w)
  }

  /** The quad of the glyph: the whole of it with its texture, or with fine clipping the part inside the rectangle. */
  predicate IsQuadOf(q: Quad, m: Metrics, f: Frame, c: nat, x: real, y: real)
    requires GlyphOf(m.table, c).Some?
  {
    var g := GlyphOf(m.table, c).value;
    var b := BoxOf(g, m.scale, x, y);
    if f.fineClip then
      && q.x.a1 == (if b.x1 < f.clip.x then f.clip.x else b.x1)
      && q.x.a2 == (if b.x2 > f.clip.z then f.clip.z else b.x2)
      && q.y.a1 == (if b.y1 < f.clip.y then f.clip.y else b.y1)
      && q.y.a2 == (if b.y2 > f.clip.w then f.clip.w else b.y2)
    else
      q == Quad(Span(b.x1, b.x2, g.u0, g.u1), Span(b.y1, b.y2, g.v0, g.v1))
  }

  lemma GlyphIsDrawnIff(m: Metrics, f: Frame, c: nat, x: real, y: real)
    ensures GlyphQuad(m, f, c, x, y).Some? <==> Reaches(m, f, c, x, y)
    ensures Reaches(m, f, c, x, y) ==>
              GlyphOf(m.table, c).Some? && IsQuadOf(GlyphQuad(m, f, c, x, y).value, m, f, c, x, y)
  {
    hide GlyphOf, Clipped, WholeQuad, BoxOf;
    if GlyphOf(m.table, c).Some? && c != SPACE && c != TAB {
      var g := GlyphOf(m.table, c).value;
      WholeBox(g, m.scale, x, y);
      ClippedIff(WholeQuad(g, m.scale, x, y), f.clip, f.byZero);
    }
  }

  lemma WholeBox(g: Glyph, scale: real, x: real, y: real)
    ensures var b := BoxOf(g, scale, x, y);
            WholeQuad(g, scale, x, y) == Quad(Span(b.x1, b.x2, g.u0, g.u1), Span(b.y1, b.y2, g.v0, g.v1))
  {}

  lemma ClippedIff(q: Quad, clip: Rect, byZero: real)
    ensures var r := Clipped(q, clip, byZero);
            && (r.Some? <==> q.y.a1 < q.y.a2 && q.y.a1 < clip.w && clip.y < q.y.a2 && clip.y < clip.w)
            && (r.Some? ==>
                  && r.value.x.a1 == (if q.x.a1 < clip.x then clip.x else q.x.a1)
                  && r.value.x.a2 == (if q.x.a2 > clip.z then clip.z else q.x.a2)
                  && r.value.y.a1 == (if q.y.a1 < clip.y then clip.y else q.y.a1)
                  && r.value.y.a2 == (if q.y.a2 > clip.w then clip.w else q.y.a2))
  {
    hide CutLow, CutHigh;
    CutPositions(q.x, clip.x, clip.z, byZero);
    CutPositions(q.y, clip.y, clip.w, byZero);
  }

  // ----- The quads of a text

  ghost predicate MarkReaches(m: Metrics, f: Frame, mark: Mark) {
    Reaches(m, f, mark.c, f.pos.x + mark.x, LineY(f, mark.line))
  }

  ghost predicate IsMarksQuad(q: Quad, m: Metrics, f: Frame, mark: Mark) {
    && GlyphOf(m.table, mark.c).Some?
    && IsQuadOf(q, m, f, mark.c, f.pos.x + mark.x, LineY(f, mark.line))
  }

  lemma MarkIsDrawnIff(m: Metrics, f: Frame, mark: Mark)
    ensures MarkQuad(m, f, mark).Some? <==> MarkReaches(m, f, mark)
    ensures MarkReaches(m, f, mark) ==> IsMarksQuad(MarkQuad(m, f, mark).value, m, f, mark)
  {
    hide Reaches, IsQuadOf, GlyphQuad, GlyphOf, LineY;
    var (x, y) := (f.pos.x + mark.x, LineY(f, mark.line));
    LineTopIsY(m, f, mark.line);
    GlyphIsDrawnIff(m, f, mark.c, x, y);
    MarkIsGlyph(m, f, mark, x, y);
  }

  function MarkQuads(m: Metrics, f: Frame, marks: seq<Mark>): seq<Option<Quad>> {
    seq(|marks|, i requires 0 <= i < |marks| => MarkQuad(m, f, marks[i]))
  }

  lemma {:induction false} QuadsAreSomes(m: Metrics, f: Frame, marks: seq<Mark>)
    ensures Quads(m, f, marks) == Somes(MarkQuads(m, f, marks))
    decreases |marks|
  {
    hide MarkQuad;
    if marks != [] {
      QuadsAreSomes(m, f, marks[1..]);
      SomesCons(MarkQuad(m, f, marks[0]), MarkQuads(m, f, marks[1..]));
      assert MarkQuads(m, f, marks) == [MarkQuad(m, f, marks[0])] + MarkQuads(m, f, marks[1..]);
    }
  }

  /** One quad for each of the marks that reach the clip rectangle, in their order, and no other. */
  ghost predicate OnePerMark(m: Metrics, f: Frame, marks: seq<Mark>, quads: seq<Quad>, at: seq<nat>) {
    && |at| == |quads| && Rising(at, |marks|)
    && (forall i :: 0 <= i < |marks| ==> (i in at <==> MarkReaches(m, f, marks[i])))
    && (forall j :: 0 <= j < |at| ==> IsMarksQuad(quads[j], m, f, marks[at[j]]))
  }

  /** Of the characters that the drawing walk comes by, just those whose glyphs reach the clip rectangle are drawn:
      one quad each, in order. */
  lemma DrawsWhatReaches(m: Metrics, f: Frame, text: Text, wrapWidth: real)
    ensures var marks := DrawnMarks(DrawGauge(m, f), text, wrapWidth);
            exists at :: OnePerMark(m, f, marks, TextQuads(m, f, text, wrapWidth), at)
  {
    hide DrawnMarks, MarkReaches, IsMarksQuad, MarkQuad;
    var marks := DrawnMarks(DrawGauge(m, f), text, wrapWidth);
    QuadsAreSomes(m, f, marks);
    var at := SomesPicked(MarkQuads(m, f, marks));
    forall i | 0 <= i < |marks|
      ensures MarkQuad(m, f, marks[i]).Some? <==> MarkReaches(m, f, marks[i])
      ensures MarkReaches(m, f, marks[i]) ==> IsMarksQuad(MarkQuad(m, f, marks[i]).value, m, f, marks[i])
    {
      MarkIsDrawnIff(m, f, marks[i]);
    }
    assert OnePerMark(m, f, marks, TextQuads(m, f, text, wrapWidth), at);
  }

  // ----- Text without wrapping, from its characters to its quads

  function DrawnWidths(m: Metrics): nat -> real {
    (c: nat) => DrawWidth(m, c)
  }

  /** Character i of the text: its line touches the clip rectangle's height, and its glyph reaches the rectangle. */
  ghost predicate CharReaches(m: Metrics, f: Frame, cs: seq<nat>, i: nat)
    requires i < |cs|
  {
    var y := LineY(f, LineOf(cs, i));
    && cs[i] != 10 && cs[i] != 13 && y <= f.clip.w && f.clip.y <= y + f.lineHeight
    && Reaches(m, f, cs[i], f.pos.x + XOf(DrawnWidths(m), cs, i), y)
  }

  ghost predicate IsCharsQuad(q: Quad, m: Metrics, f: Frame, cs: seq<nat>, i: nat)
    requires i < |cs|
  {
    && GlyphOf(m.table, cs[i]).Some?
    && IsQuadOf(q, m, f, cs[i], f.pos.x + XOf(DrawnWidths(m), cs, i), LineY(f, LineOf(cs, i)))
  }

  ghost predicate OnePerChar(m: Metrics, f: Frame, cs: seq<nat>, quads: seq<Quad>, at: seq<nat>) {
    && |at| == |quads| && Rising(at, |cs|)
    && (forall i :: 0 <= i < |cs| ==> (i in at <==> CharReaches(m, f, cs, i)))
    && (forall j :: 0 <= j < |at| ==> IsCharsQuad(quads[j], m, f, cs, at[j]))
  }

  function CharQuad(m: Metrics, f: Frame, cs: seq<nat>, i: nat): Option<Quad>
    requires AllScalars(cs) && i < |cs|
  {
    var g := DrawGauge(m, f);
    if IsPlaced(cs, i) && Shown(g)(LineOf(cs, i)) then MarkQuad(m, f, MarkOf(Widths(g), cs, i)) else None
  }

  lemma CharIsDrawnIff(m: Metrics, f: Frame, cs: seq<nat>, i: nat)
    requires AllScalars(cs) && i < |cs|
    ensures CharQuad(m, f, cs, i).Some? <==> CharReaches(m, f, cs, i)
    ensures CharReaches(m, f, cs, i) ==> IsCharsQuad(CharQuad(m, f, cs, i).value, m, f, cs, i)
  {
    hide Reaches, IsQuadOf, MarkQuad, GlyphOf, LineOf, XOf, StartOf, LineY, Shown;
    var g := DrawGauge(m, f);
    LineTopIsY(m, f, LineOf(cs, i));
    SameX(Widths(g), DrawnWidths(m), cs, i);
    MarkIsDrawnIff(m, f, MarkOf(Widths(g), cs, i));
  }

  /** The quads of the characters from k on. */
  function CharQuads(m: Metrics, f: Frame, cs: seq<nat>, k: nat): seq<Option<Quad>>
    requires AllScalars(cs) && k <= |cs|
  {
    seq(|cs| - k, i requires 0 <= i < |cs| - k => CharQuad(m, f, cs, k + i))
  }

  lemma {:induction false} CharsAreSomes(m: Metrics, f: Frame, cs: seq<nat>, k: nat)
    requires AllScalars(cs) && k <= |cs|
    ensures var g := DrawGauge(m, f);
            Quads(m, f, MarksOf(Widths(g), Shown(g), cs, k)) == Somes(CharQuads(m, f, cs, k))
    decreases |cs| - k
  {
    hide CharQuad, Shown, Widths, MarksOf, Somes, Quads, CharQuads;
    if k == |cs| {
      NoChars(m, f, cs);
    } else {
      CharsAreSomes(m, f, cs, k + 1);
      SomesCons(CharQuad(m, f, cs, k), CharQuads(m, f, cs, k + 1));
      CharQuadsCons(m, f, cs, k);
      CharsStep(m, f, cs, k);
    }
  }

  lemma NoChars(m: Metrics, f: Frame, cs: seq<nat>)
    requires AllScalars(cs)
    ensures var g := DrawGauge(m, f);
            Quads(m, f, MarksOf(Widths(g), Shown(g), cs, |cs|)) == Somes(CharQuads(m, f, cs, |cs|))
  {}

  lemma CharQuadsCons(m: Metrics, f: Frame, cs: seq<nat>, k: nat)
    requires AllScalars(cs) && k < |cs|
    ensures CharQuads(m, f, cs, k) == [CharQuad(m, f, cs, k)] + CharQuads(m, f, cs, k + 1)
  {
    hide CharQuad;
  }

  lemma CharsStep(m: Metrics, f: Frame, cs: seq<nat>, k: nat)
    requires AllScalars(cs) && k < |cs|
    ensures var g := DrawGauge(m, f);
            Quads(m, f, MarksOf(Widths(g), Shown(g), cs, k))
            == OneOrNone(CharQuad(m, f, cs, k)) + Quads(m, f, MarksOf(Widths(g), Shown(g), cs, k + 1))
  {
    hide MarkQuad, MarkOf, LineOf, Shown, Widths;
    var g := DrawGauge(m, f);
    var more := MarksOf(Widths(g), Shown(g), cs, k + 1);
    if IsPlaced(cs, k) && Shown(g)(LineOf(cs, k)) {
      QuadsNext(m, f, MarkOf(Widths(g), cs, k), more);
    } else {
      assert [] + more == more;
      assert [] + Quads(m, f, more) == Quads(m, f, more);
    }
  }

  lemma PlainMarksAreDrawn(m: Metrics, f: Frame, cs: seq<nat>, wrapWidth: real)
    requires AllScalars(cs) && wrapWidth <= 0.0 && f.lineHeight >= 0.0
    ensures var g := DrawGauge(m, f);
            DrawnMarks(g, Spell(cs), wrapWidth) == MarksOf(Widths(g), Shown(g), cs, 0)
  {
    hide Spell, SkipLine;
    var g := DrawGauge(m, f);
    AtTheEnd(cs);
    assert cs[..0] == [];
    if g.Below(0) {
      AllBelow(g, cs, 0);
    } else if g.Above(0) {
      var j := SkipsToNewline(cs, 0);
      SameLineUpTo(cs, 0, j);
      SkippedLineHidden(g, cs, 0, j);
      PlainRun(g, cs, wrapWidth, START.(s := StartOf(cs, j)), j);
    } else {
      PlainRun(g, cs, wrapWidth, START, 0);
    }
  }

  /** Correctly spelt text that is not wrapped: a character is drawn if and only if its line touches the clip
      rectangle's height and its glyph reaches the rectangle; then there is one quad for it, in the order of the text,
      at the widths of the characters before it on its line and the newlines before it.  So passing over lines, and
      stopping, at lines that cannot be seen is nothing but a short cut. */
  lemma PlainTextIsDrawn(m: Metrics, f: Frame, cs: seq<nat>, wrapWidth: real)
    requires AllScalars(cs) && wrapWidth <= 0.0 && f.lineHeight >= 0.0
    ensures exists at :: OnePerChar(m, f, cs, TextQuads(m, f, Spell(cs), wrapWidth), at)
  {
    hide DrawnMarks, Spell, CharReaches, IsCharsQuad, CharQuad;
    PlainMarksAreDrawn(m, f, cs, wrapWidth);
    CharsAreSomes(m, f, cs, 0);
    var at := SomesPicked(CharQuads(m, f, cs, 0));
    forall i | 0 <= i < |cs|
      ensures CharQuad(m, f, cs, i).Some? <==> CharReaches(m, f, cs, i)
      ensures CharReaches(m, f, cs, i) ==> IsCharsQuad(CharQuad(m, f, cs, i).value, m, f, cs, i)
    {
      CharIsDrawnIff(m, f, cs, i);
    }
    assert OnePerChar(m, f, cs, TextQuads(m, f, Spell(cs), wrapWidth), at);
  }

  // ----- Vertices and indices

  lemma TextSnoc(quads: seq<Quad>, col: nat, base: nat)
    requires quads != []
    ensures TextVertices(quads, col) == TextVertices(Front(quads), col) + QuadVertices(Last(quads), col)
    ensures TextIndices(base, |quads|) == TextIndices(base, |quads| - 1) + QuadIndices(base + (|quads| - 1) * 4)
  {}

  /** Quad k of a text has four vertices of its own, clockwise from the upper left corner, in the text's colour, and
      two triangles on them, both with the upper left and the lower right corner. */
  lemma {:induction false} QuadInBuffers(quads: seq<Quad>, col: nat, base: nat, k: nat)
    requires k < |quads| && base + |quads| * 4 <= 0x10000
    ensures var (v, q) := (TextVertices(quads, col), quads[k]);
            && v[k * 4] == Vertex(Vec2(q.x.a1, q.y.a1), Vec2(q.x.t1, q.y.t1), col)
            && v[k * 4 + 1] == Vertex(Vec2(q.x.a2, q.y.a1), Vec2(q.x.t2, q.y.t1), col)
            && v[k * 4 + 2] == Vertex(Vec2(q.x.a2, q.y.a2), Vec2(q.x.t2, q.y.t2), col)
            && v[k * 4 + 3] == Vertex(Vec2(q.x.a1, q.y.a2), Vec2(q.x.t1, q.y.t2), col)
    ensures var (i, a) := (TextIndices(base, |quads|), base + k * 4);
            && i[k * 6] == a && i[k * 6 + 1] == a + 1 && i[k * 6 + 2] == a + 2
            && i[k * 6 + 3] == a && i[k * 6 + 4] == a + 2 && i[k * 6 + 5] == a + 3
    decreases |quads|
  {
    hide TextVertices, TextIndices;
    TextSnoc(quads, col, base);
    if k < |quads| - 1 {
      QuadInBuffers(Front(quads), col, base, k);
    }
  }

  // ----- Where the text starts

  /** Text starts at a whole pixel, cut towards zero, displaced by the font's offset. */
  lemma StartsAtWholePixel(origin: Vec2, displayOffset: Vec2)
    ensures var p := Aligned(origin, displayOffset);
            IsCut(origin.x, p.x - displayOffset.x) && IsCut(origin.y, p.y - displayOffset.y)
  {
    CutTowardsZero(origin.x);
    CutTowardsZero(origin.y);
  }

  /** A whole number at most as far from zero as r, on the same side, and less than one away. */
  ghost predicate IsCut(r: real, whole: real) {
    && whole.Floor as real == whole
    && (if r >= 0.0 then 0.0 <= whole <= r < whole + 1.0 else whole - 1.0 < r <= whole <= 0.0)
  }

  lemma CutTowardsZero(r: real)
    ensures IsCut(r, Truncated(r))
  {
    var n: int := if r >= 0.0 then r.Floor else -(-r).Floor;
    assert Truncated(r) == n as real;
    WholeIsItsFloor(n);
  }

  lemma WholeIsItsFloor(n: int)
    ensures (n as real).Floor == n
  {}
}
