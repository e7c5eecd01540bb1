/** RenderText's clipping of a glyph on the CPU: four cuts in a row, each adjusting the texture coordinates
    from what the cuts before it left. */
module FineClip {
  import opened Basics
  import opened DrawState

  /** One axis of a glyph: it goes from position a1 to a2, where the texture coordinates are t1 and t2. */
  datatype Span = Span(a1: real, a2: real, t1: real, t2: real)

  datatype Quad = Quad(x: Span, y: Span)

  /** A quotient; `byZero` stands for whatever a division by zero gives. */
  function Ratio(a: real, b: real, byZero: real): real {
    if b == 0.0 then byZero else a / b
  }

  function CutLow(s: Span, low: real, byZero: real): Span {
    if s.a1 < low then s.(t1 := s.t1 + (1.0 - Ratio(s.a2 - low, s.a2 - s.a1, byZero)) * (s.t2 - s.t1), a1 := low) else s
  }

  function CutHigh(s: Span, high: real, byZero: real): Span {
    if s.a2 > high then s.(t2 := s.t1 + Ratio(high - s.a1, s.a2 - s.a1, byZero) * (s.t2 - s.t1), a2 := high) else s
  }

  function Clipped(q: Quad, clip: Rect, byZero: real): Option<Quad> {
    var left := q.(x := CutLow(q.x, clip.x, byZero));
    var top := left.(y := CutLow(left.y, clip.y, byZero));
    var right := top.(x := CutHigh(top.x, clip.z, byZero));
    var bottom := right.(y := CutHigh(right.y, clip.w, byZero));
    if bottom.y.a1 >= bottom.y.a2 then None else Some(bottom)
  }

  /** The test before the clipping. */
  predicate Touches(q: Quad, clip: Rect) {
    q.x.a1 <= clip.z && q.x.a2 >= clip.x
  }

  // ----- The texture map

  /** The texture coordinate at position a, on the line through the two ends. */
  function TextureAt(s: Span, a: real): real
    requires s.a1 < s.a2
  {
    s.t1 + (a - s.a1) / (s.a2 - s.a1) * (s.t2 - s.t1)
  }

  function Higher(a: real, b: real): real {
    if a < b then b else a
  }

  function Lower(a: real, b: real): real {
    if a > b then b else a
  }

  /** The part of a span between two positions, with the texture map of the whole. */
  function Part(s: Span, low: real, high: real): Span
    requires s.a1 < s.a2
  {
    Span(low, high, TextureAt(s, low), TextureAt(s, high))
  }

  lemma Quotients(a: real, b: real)
    requires b > 0.0
    ensures 1.0 - (b - a) / b == a / b
  {
    assert (b - a) / b == b / b - a / b;
  }

  lemma TextureEnds(s: Span)
    requires s.a1 < s.a2
    ensures TextureAt(s, s.a1) == s.t1 && TextureAt(s, s.a2) == s.t2
  {
    assert (s.a2 - s.a1) / (s.a2 - s.a1) == 1.0;
  }

  lemma LowCut(s: Span, low: real, byZero: real)
    requires s.a1 < s.a2
    ensures CutLow(s, low, byZero) == Part(s, Higher(s.a1, low), s.a2)
  {
    TextureEnds(s);
    if s.a1 < low {
      var (a, b) := (low - s.a1, s.a2 - s.a1);
      Quotients(a, b);
      assert s.a2 - low == b - a;
    }
  }

  /** Resuming from a position on the line stays on the line. */
  lemma TextureResumes(s: Span, low: real, a: real)
    requires s.a1 < s.a2 && low < s.a2
    ensures TextureAt(Part(s, low, s.a2), a) == TextureAt(s, a)
  {
    var d, e := s.a2 - s.a1, s.a2 - low;
    var k := (s.t2 - s.t1) / d;
    TextureEnds(s);
    assert forall x: real :: TextureAt(s, x) == s.t1 + (x - s.a1) * k;
    var r := Part(s, low, s.a2);
    assert r.t2 - r.t1 == e * k;
    assert (a - low) / e * (e * k) == (a - low) * k;
  }

  lemma HighCut(s: Span, high: real, byZero: real)
    requires s.a1 < s.a2
    ensures CutHigh(s, high, byZero) == Part(s, s.a1, Lower(s.a2, high))
  {
    TextureEnds(s);
  }

  /** Both cuts of one axis. */
  lemma AxisCut(s: Span, low: real, high: real, byZero: real)
    requires s.a1 < s.a2 && low <= high && s.a1 <= high && low <= s.a2
    ensures CutHigh(CutLow(s, low, byZero), high, byZero) == Part(s, Higher(s.a1, low), Lower(s.a2, high))
  {
    hide TextureAt, CutLow, CutHigh;
    LowCut(s, low, byZero);
    var r := CutLow(s, low, byZero);
    if r.a1 < r.a2 {
      HighCut(r, high, byZero);
      TextureResumes(s, r.a1, Lower(s.a2, high));
      TextureResumes(s, r.a1, r.a1);
    } else {
      NoHighCut(r, high, byZero);
    }
  }

  lemma NoHighCut(s: Span, high: real, byZero: real)
    requires s.a2 <= high
    ensures CutHigh(s, high, byZero) == s
  {}

  lemma CutPositions(s: Span, low: real, high: real, byZero: real)
    ensures var r := CutHigh(CutLow(s, low, byZero), high, byZero);
            r.a1 == Higher(s.a1, low) && r.a2 == Lower(s.a2, high)
  {}

  /** Clipping keeps the texture map: a glyph is drawn exactly if it shares some height with the clip
      rectangle, what is drawn is their intersection, and its corners have the texture coordinates
      that the whole glyph has there. */
  lemma ClippingKeepsTexture(q: Quad, clip: Rect, byZero: real)
    requires q.x.a1 < q.x.a2 && q.y.a1 < q.y.a2 && clip.Ordered() && Touches(q, clip)
    ensures Clipped(q, clip, byZero) ==
            if Higher(q.y.a1, clip.y) < Lower(q.y.a2, clip.w)
            then Some(Quad(Part(q.x, Higher(q.x.a1, clip.x), Lower(q.x.a2, clip.z)),
                           Part(q.y, Higher(q.y.a1, clip.y), Lower(q.y.a2, clip.w))))
            else None
  {
    hide Part, CutLow, CutHigh, Higher, Lower;
    CutPositions(q.y, clip.y, clip.w, byZero);
    AxisCut(q.x, clip.x, clip.z, byZero);
    if Higher(q.y.a1, clip.y) < Lower(q.y.a2, clip.w) {
      SharesHeight(q.y, clip.y, clip.w);
      AxisCut(q.y, clip.y, clip.w, byZero);
    }
  }

  lemma SharesHeight(s: Span, low: real, high: real)
    requires Higher(s.a1, low) < Lower(s.a2, high)
    ensures s.a1 < high && low < s.a2
  {}

  /** Whatever a division by zero gives, it is never drawn; not even for a glyph without width or height. */
  lemma DivisionByZeroIsDiscarded(q: Quad, clip: Rect, byZero: real, other: real)
    requires clip.Ordered() && Touches(q, clip)
    ensures Clipped(q, clip, byZero) == Clipped(q, clip, other)
  {
    hide CutLow, CutHigh;
    CutPositions(q.y, clip.y, clip.w, byZero);
    CutPositions(q.y, clip.y, clip.w, other);
    NeverDivides(q.x, clip.x, clip.z, byZero, other);
    if Higher(q.y.a1, clip.y) < Lower(q.y.a2, clip.w) {
      NeverDivides(q.y, clip.y, clip.w, byZero, other);
    }
  }

  /** Cutting an axis that touches the interval divides by nothing but positive widths. */
  lemma NeverDivides(s: Span, low: real, high: real, byZero: real, other: real)
    requires low <= high && s.a1 <= high && low <= s.a2
    ensures CutHigh(CutLow(s, low, byZero), high, byZero) == CutHigh(CutLow(s, low, other), high, other)
  {}
}
