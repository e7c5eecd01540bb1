/** The 16-bit limit on indices.  Every primitive means certain vertices by number; what it writes are these numbers
    cut to 16 bits.  Here is when nothing is cut off. */
module IndexLimit {
  import opened DrawState
  import opened Primitives
  import opened TextRenderer

  /** (ImDrawIdx) of each number. */
  function Cast(nums: seq<nat>): (s: seq<Index>)
    ensures |s| == |nums|
  {
    seq(|nums|, i requires 0 <= i < |nums| => Idx(nums[i]))
  }

  lemma CastExactIff(nums: seq<nat>)
    ensures Cast(nums) == nums <==> forall x <- nums :: x < 0x10000
  {
    if Cast(nums) == nums {
      forall x | x in nums
        ensures x < 0x10000
      {
        var i :| 0 <= i < |nums| && nums[i] == x;
        assert Cast(nums)[i] == x;
      }
    }
    if forall x <- nums :: x < 0x10000 {
      forall i | 0 <= i < |nums|
        ensures Cast(nums)[i] == nums[i]
      {
        assert nums[i] in nums;
      }
    }
  }

  lemma CastConcat(a: seq<nat>, b: seq<nat>)
    ensures Cast(a + b) == Cast(a) + Cast(b)
  {}

  // ----- The vertices that primitives mean

  function QuadNumbers(base: nat): seq<nat> {
    [base, base + 1, base + 2, base, base + 2, base + 3]
  }

  function SegmentNumbers(kind: Stroke, a: nat, b: nat): seq<nat> {
    match kind
    case Thin => [b, a, a + 2, a + 2, b + 2, b, b + 1, a + 1, a, a, b, b + 1]
    case Thick =>
      [b + 1, a + 1, a + 2, a + 2, b + 2, b + 1, b + 1, a + 1, a, a, b, b + 1, b + 2, a + 2, a + 3, a + 3, b + 3, b + 2]
    case Plain => QuadNumbers(a)
  }

  function StrokeNumbers(kind: Stroke, base: nat, n: nat, k: nat): seq<nat> {
    if k == 0 then []
    else
      StrokeNumbers(kind, base, n, k - 1)
      + SegmentNumbers(kind, base + kind.Vertices(k - 1), base + kind.Vertices(NextPoint(k - 1, n)))
  }

  function FanNumbers(base: nat, step: nat, n: nat): seq<nat> {
    if n <= 2 then [] else FanNumbers(base, step, n - 1) + [base, base + (n - 2) * step, base + (n - 1) * step]
  }

  /** Inner vertices have even distance from the first one, outer vertices odd. */
  function FringeNumbers(base: nat, n: nat, k: nat): seq<nat>
    requires k <= n
  {
    if k == 0 then []
    else
      var i0, i1 := PreviousPoint(k - 1, n), k - 1;
      FringeNumbers(base, n, k - 1) + FringeStep(base + i0 * 2, base + i1 * 2)
  }

  /** Two triangles between the inner vertices a and b and the outer ones behind them. */
  function FringeStep(a: nat, b: nat): seq<nat> {
    [b, a, a + 1, a + 1, b + 1, b]
  }

  function TextNumbers(base: nat, n: nat): seq<nat> {
    if n == 0 then [] else TextNumbers(base, n - 1) + QuadNumbers(base + (n - 1) * 4)
  }

  // ----- What is written is their cast

  lemma SegmentIsCast(kind: Stroke, a: nat, b: nat)
    ensures SegmentIndices(kind, a, b) == Cast(SegmentNumbers(kind, a, b))
  {
    hide Idx;
  }

  lemma QuadIsCast(base: nat)
    ensures QuadIndices(base) == Cast(QuadNumbers(base))
  {
    hide Idx;
  }

  lemma {:induction false} StrokeIsCast(kind: Stroke, base: nat, n: nat, k: nat)
    ensures StrokeIndices(kind, base, n, k) == Cast(StrokeNumbers(kind, base, n, k))
    decreases k
  {
    hide SegmentIndices, SegmentNumbers, Cast, Stroke.Vertices;
    if k == 0 {
      NothingCast();
    } else {
      var (a, b) := (base + kind.Vertices(k - 1), base + kind.Vertices(NextPoint(k - 1, n)));
      StrokeIsCast(kind, base, n, k - 1);
      SegmentIsCast(kind, a, b);
      CastConcat(StrokeNumbers(kind, base, n, k - 1), SegmentNumbers(kind, a, b));
    }
  }

  lemma NothingCast()
    ensures Cast([]) == []
  {}

  lemma {:induction false} FanIsCast(base: nat, step: nat, n: nat)
    ensures FanIndices(base, step, n) == Cast(FanNumbers(base, step, n))
    decreases n
  {
    hide Idx;
    if n > 2 {
      FanIsCast(base, step, n - 1);
      CastConcat(FanNumbers(base, step, n - 1), [base, base + (n - 2) * step, base + (n - 1) * step]);
    }
  }

  lemma {:induction false} FringeIsCast(base: nat, n: nat, k: nat)
    requires k <= n
    ensures FringeIndices(base, n, k) == Cast(FringeNumbers(base, n, k))
    decreases k
  {
    hide Idx;
    if k > 0 {
      var i0, i1 := PreviousPoint(k - 1, n), k - 1;
      FringeIsCast(base, n, k - 1);
      var (a, b) := (base + i0 * 2, base + i1 * 2);
      CastConcat(FringeNumbers(base, n, k - 1), FringeStep(a, b));
    }
  }

  lemma {:induction false} TextIsCast(base: nat, n: nat)
    ensures TextIndices(base, n) == Cast(TextNumbers(base, n))
    decreases n
  {
    hide QuadIndices, QuadNumbers, Cast;
    if n == 0 {
      NothingCast();
    } else {
      TextIsCast(base, n - 1);
      QuadIsCast(base + (n - 1) * 4);
      CastConcat(TextNumbers(base, n - 1), QuadNumbers(base + (n - 1) * 4));
    }
  }

  // ----- They are the primitive's own vertices, up to the last

  ghost predicate Between(nums: seq<nat>, from: nat, to: nat) {
    forall x <- nums :: from <= x < to
  }

  lemma BetweenConcat(a: seq<nat>, b: seq<nat>, from: nat, to: nat)
    requires Between(a, from, to) && Between(b, from, to)
    ensures Between(a + b, from, to)
  {}

  lemma SegmentBetween(kind: Stroke, a: nat, b: nat, from: nat, to: nat)
    requires from <= a && a + kind.Vertices(1) <= to && (kind.Plain? || (from <= b && b + kind.Vertices(1) <= to))
    ensures Between(SegmentNumbers(kind, a, b), from, to)
    ensures a + kind.Vertices(1) - 1 in SegmentNumbers(kind, a, b)
    ensures !kind.Plain? ==> b + kind.Vertices(1) - 1 in SegmentNumbers(kind, a, b)
  {
    var v := a + kind.Vertices(1) - 1;
    assert v == SegmentNumbers(kind, a, b)[if kind.Thin? then 2 else if kind.Thick? then 14 else 5];
    if !kind.Plain? {
      assert b + kind.Vertices(1) - 1 == SegmentNumbers(kind, a, b)[if kind.Thin? then 4 else 16];
    }
  }

  lemma {:induction false} StrokeBetween(kind: Stroke, base: nat, n: nat, closed: bool, k: nat)
    requires n >= 2 && k <= SegmentCount(n, closed)
    ensures Between(StrokeNumbers(kind, base, n, k), base, base + VertexCount(kind, n, closed))
    decreases k
  {
    hide SegmentNumbers, Between, VertexCount, SegmentCount, Stroke.Vertices;
    if k == 0 {
      NothingBetween(base, base + VertexCount(kind, n, closed));
    } else {
      StrokeBetween(kind, base, n, closed, k - 1);
      var (a, b, to) := (base + kind.Vertices(k - 1), base + kind.Vertices(NextPoint(k - 1, n)),
                         base + VertexCount(kind, n, closed));
      SegmentStart(kind, n, closed, k - 1);
      SegmentBetween(kind, a, b, base, to);
      BetweenConcat(StrokeNumbers(kind, base, n, k - 1), SegmentNumbers(kind, a, b), base, to);
    }
  }

  lemma NothingBetween(from: nat, to: nat)
    ensures Between([], from, to)
  {}

  /** The last segment uses the last vertex. */
  lemma StrokeReaches(kind: Stroke, base: nat, n: nat, closed: bool)
    requires n >= 2
    ensures base + VertexCount(kind, n, closed) - 1 in StrokeNumbers(kind, base, n, SegmentCount(n, closed))
  {
    hide SegmentNumbers;
    var k := SegmentCount(n, closed);
    var (a, b) := (base + kind.Vertices(k - 1), base + kind.Vertices(NextPoint(k - 1, n)));
    SegmentBetween(kind, a, b, 0, a + b + 4);
    assert StrokeNumbers(kind, base, n, k) == StrokeNumbers(kind, base, n, k - 1) + SegmentNumbers(kind, a, b);
    LastVertex(kind, n, closed);
  }

  lemma LastVertex(kind: Stroke, n: nat, closed: bool)
    requires n >= 2
    ensures var k := SegmentCount(n, closed);
            var last := if kind.Plain? || closed then k - 1 else NextPoint(k - 1, n);
            VertexCount(kind, n, closed) == kind.Vertices(last) + kind.Vertices(1)
  {}

  lemma {:induction false} FanBetween(base: nat, step: nat, n: nat, to: nat)
    requires base < to && (n >= 1 ==> base + (n - 1) * step < to)
    ensures Between(FanNumbers(base, step, n), base, to)
    ensures n >= 3 ==> base + (n - 1) * step in FanNumbers(base, step, n)
    decreases n
  {
    if n > 2 {
      var (p, q) := (base + (n - 2) * step, base + (n - 1) * step);
      assert q == p + step;
      FanBetween(base, step, n - 1, to);
      assert FanNumbers(base, step, n) == FanNumbers(base, step, n - 1) + [base, p, q];
      assert q in [base, p, q];
    }
  }

  lemma {:induction false} FringeBetween(base: nat, n: nat, k: nat)
    requires k <= n
    ensures Between(FringeNumbers(base, n, k), base, base + n * 2)
    ensures k > 0 ==> base + k * 2 - 1 in FringeNumbers(base, n, k)
    decreases k
  {
    if k > 0 {
      var i0, i1 := PreviousPoint(k - 1, n), k - 1;
      FringeBetween(base, n, k - 1);
      var more := FringeStep(base + i0 * 2, base + i1 * 2);
      assert FringeNumbers(base, n, k) == FringeNumbers(base, n, k - 1) + more;
      assert more[4] == base + k * 2 - 1;
    }
  }

  lemma {:induction false} TextBetween(base: nat, n: nat)
    ensures Between(TextNumbers(base, n), base, base + n * 4)
    ensures n > 0 ==> base + n * 4 - 1 in TextNumbers(base, n)
    decreases n
  {
    if n > 0 {
      TextBetween(base, n - 1);
      var quad := QuadNumbers(base + (n - 1) * 4);
      assert TextNumbers(base, n) == TextNumbers(base, n - 1) + quad;
      assert quad[5] == base + n * 4 - 1;
    }
  }

  // ----- One primitive

  /** What the drawing methods append: a stroke or fill of n points, one quad, or a text of n drawn glyphs. */
  datatype Shape =
    | Stroked(kind: Stroke, n: nat, closed: bool)
    | Filled(n: nat, antiAliased: bool)
    | Rectangle
    | Text(n: nat)
  {
    predicate Enough() {
      Stroked? || Filled? ==> n >= 2
    }

    function Vertices(): nat
      requires Enough()
    {
      match this
      case Stroked(kind, n, closed) => VertexCount(kind, n, closed)
      case Filled(n, antiAliased) => FillVertexCount(n, antiAliased)
      case Rectangle => 4
      case Text(n) => n * 4
    }

    /** The indices written when _VtxCurrentIdx is `base`. */
    function Indices(base: nat): seq<Index>
      requires Enough()
    {
      match this
      case Stroked(kind, n, closed) => StrokeIndices(kind, base, n, SegmentCount(n, closed))
      case Filled(n, antiAliased) => FillIndices(base, n, antiAliased)
      case Rectangle => QuadIndices(base)
      case Text(n) => TextIndices(base, n)
    }

    /** The vertices meant when `base` vertices come before. */
    function Numbers(base: nat): seq<nat>
      requires Enough()
    {
      match this
      case Stroked(kind, n, closed) => StrokeNumbers(kind, base, n, SegmentCount(n, closed))
      case Filled(n, antiAliased) =>
        if antiAliased then FanNumbers(base, 2, n) + FringeNumbers(base, n, n) else FanNumbers(base, 1, n)
      case Rectangle => QuadNumbers(base)
      case Text(n) => TextNumbers(base, n)
    }

    /** It has a triangle. */
    predicate Draws() {
      match this
      case Filled(n, antiAliased) => antiAliased || n >= 3
      case Text(n) => n > 0
      case _ => true
    }

    /** _VtxCurrentIdx afterwards; some primitives count their vertices in 16 bits, text counts the buffer anew. */
    function Counter(counter: nat, vertices: nat): nat
      requires Enough()
    {
      match this
      case Stroked(kind, _, _) => counter + if kind.Plain? then Vertices() else Vertices() % 0x10000
      case Filled(_, _) => counter + Vertices() % 0x10000
      case Rectangle => counter + 4
      case Text(_) => vertices + Vertices()
    }
  }

  lemma ShapeIsCast(s: Shape, base: nat)
    requires s.Enough()
    ensures s.Indices(base) == Cast(s.Numbers(base))
  {
    hide Cast, StrokeIndices, FanIndices, FringeIndices, TextIndices, QuadIndices,
      StrokeNumbers, FanNumbers, FringeNumbers, TextNumbers, QuadNumbers;
    match s
    case Stroked(kind, n, closed) => StrokeIsCast(kind, base, n, SegmentCount(n, closed));
    case Filled(n, antiAliased) =>
      FanIsCast(base, if antiAliased then 2 else 1, n);
      FringeIsCast(base, n, n);
      CastConcat(FanNumbers(base, 2, n), FringeNumbers(base, n, n));
    case Rectangle => QuadIsCast(base);
    case Text(n) => TextIsCast(base, n);
  }

  /** A primitive means vertices of its own, the last among them. */
  lemma ShapeBetween(s: Shape, base: nat)
    requires s.Enough()
    ensures Between(s.Numbers(base), base, base + s.Vertices())
    ensures if s.Draws() then s.Vertices() > 0 && base + s.Vertices() - 1 in s.Numbers(base) else s.Numbers(base) == []
  {
    hide StrokeNumbers, FringeNumbers, TextNumbers;
    match s
    case Stroked(kind, n, closed) =>
      StrokeBetween(kind, base, n, closed, SegmentCount(n, closed));
      StrokeReaches(kind, base, n, closed);
    case Filled(n, antiAliased) =>
      FanBetween(base, if antiAliased then 2 else 1, n, base + s.Vertices());
      FringeBetween(base, n, n);
    case Rectangle =>
      assert QuadNumbers(base)[5] == base + 3;
    case Text(n) =>
      TextBetween(base, n);
      if n == 0 {
        NoText(base);
      }
  }

  lemma NoText(base: nat)
    ensures TextNumbers(base, 0) == []
  {}

  /** No index of a primitive is cut off if and only if its vertices end by 65536 (or it has no triangle). */
  lemma ShapeExactIff(s: Shape, base: nat)
    requires s.Enough()
    ensures s.Indices(base) == s.Numbers(base) <==> !s.Draws() || base + s.Vertices() <= 0x10000
  {
    hide Cast, Shape.Indices, Shape.Numbers, Shape.Vertices, Shape.Draws;
    ShapeIsCast(s, base);
    ShapeBetween(s, base);
    CastExactIff(s.Numbers(base));
  }

  // ----- Runs

  ghost predicate AllEnough(shapes: seq<Shape>) {
    forall s <- shapes :: s.Enough()
  }

  function VerticesOf(shapes: seq<Shape>): nat
    requires AllEnough(shapes)
  {
    if shapes == [] then 0 else VerticesOf(Front(shapes)) + Last(shapes).Vertices()
  }

  /** _VtxCurrentIdx after the run. */
  function CounterOf(shapes: seq<Shape>): nat
    requires AllEnough(shapes)
  {
    if shapes == [] then 0 else Last(shapes).Counter(CounterOf(Front(shapes)), VerticesOf(Front(shapes)))
  }

  /** The index buffer after the run. */
  function IndicesOf(shapes: seq<Shape>): seq<Index>
    requires AllEnough(shapes)
  {
    if shapes == [] then [] else IndicesOf(Front(shapes)) + Last(shapes).Indices(CounterOf(Front(shapes)))
  }

  /** The vertices that its primitives mean. */
  function NumbersOf(shapes: seq<Shape>): seq<nat>
    requires AllEnough(shapes)
  {
    if shapes == [] then [] else NumbersOf(Front(shapes)) + Last(shapes).Numbers(VerticesOf(Front(shapes)))
  }

  /** Every primitive with a triangle ends by vertex 65536. */
  ghost predicate AllFit(shapes: seq<Shape>)
    requires AllEnough(shapes)
  {
    shapes == [] || (AllFit(Front(shapes)) && (Last(shapes).Draws() ==> VerticesOf(shapes) <= 0x10000))
  }

  /** As long as all fit, the counter is right, or nothing more will fit. */
  lemma {:induction false} CounterRight(shapes: seq<Shape>)
    requires AllEnough(shapes) && AllFit(shapes)
    ensures CounterOf(shapes) == VerticesOf(shapes) || VerticesOf(shapes) >= 0x10000
    decreases |shapes|
  {
    if shapes != [] {
      CounterRight(Front(shapes));
      CounterStep(Last(shapes), CounterOf(Front(shapes)), VerticesOf(Front(shapes)));
    }
  }

  lemma CounterStep(s: Shape, counter: nat, vertices: nat)
    requires s.Enough() && (counter == vertices || vertices >= 0x10000)
    requires s.Draws() ==> vertices + s.Vertices() <= 0x10000
    ensures s.Counter(counter, vertices) == vertices + s.Vertices() || vertices + s.Vertices() >= 0x10000
  {
    hide VertexCount;
  }

  lemma {:induction false} UnfitIsBig(shapes: seq<Shape>)
    requires AllEnough(shapes) && !AllFit(shapes)
    ensures exists x :: x in NumbersOf(shapes) && x >= 0x10000
    decreases |shapes|
  {
    hide Shape.Numbers, Shape.Vertices, Shape.Draws;
    var front := Front(shapes);
    if !AllFit(front) {
      UnfitIsBig(front);
      var x :| x in NumbersOf(front) && x >= 0x10000;
      assert x in NumbersOf(shapes);
    } else {
      ShapeBetween(Last(shapes), VerticesOf(front));
      assert VerticesOf(shapes) - 1 in NumbersOf(shapes);
    }
  }

  lemma IndicesSmall(idxs: seq<Index>, nums: seq<nat>)
    requires idxs == nums
    ensures forall x <- nums :: x < 0x10000
  {
    forall x | x in nums
      ensures x < 0x10000
    {
      var i :| 0 <= i < |nums| && nums[i] == x;
      assert idxs[i] < 0x10000;
    }
  }

  /** After any run of strokes, fills, quads, images and texts from an empty list, every index is the vertex that its
      primitive means, if and only if each primitive with a triangle ends by vertex 65536. */
  lemma {:induction false} RunExactIff(shapes: seq<Shape>)
    requires AllEnough(shapes)
    ensures IndicesOf(shapes) == NumbersOf(shapes) <==> AllFit(shapes)
    decreases |shapes|
  {
    hide Shape.Numbers, Shape.Indices, Shape.Vertices, Shape.Draws, Shape.Counter;
    if !AllFit(shapes) {
      UnfitIsBig(shapes);
      if IndicesOf(shapes) == NumbersOf(shapes) {
        IndicesSmall(IndicesOf(shapes), NumbersOf(shapes));
      }
    } else if shapes != [] {
      var front, s := Front(shapes), Last(shapes);
      RunExactIff(front);
      CounterRight(front);
      ShapeBetween(s, VerticesOf(front));
      ShapeExactIff(s, CounterOf(front));
      ShapeBetween(s, CounterOf(front));
    }
  }

  /** Then the indices of each primitive are vertices of its own: those behind the vertices of the primitives before.
      */
  lemma {:induction false} RunWithin(shapes: seq<Shape>, k: nat)
    requires AllEnough(shapes) && AllFit(shapes) && k < |shapes|
    ensures AllEnough(shapes[..k]) && shapes[k].Enough()
    ensures var (at, own) := (|IndicesOf(shapes[..k])|, shapes[k].Numbers(VerticesOf(shapes[..k])));
            && at + |own| <= |IndicesOf(shapes)| && IndicesOf(shapes)[at..at + |own|] == own
            && Between(own, VerticesOf(shapes[..k]), VerticesOf(shapes[..k]) + shapes[k].Vertices())
    decreases |shapes|
  {
    hide Shape.Numbers, Shape.Indices, Shape.Vertices, Shape.Draws, Shape.Counter;
    assert shapes[k] in shapes;
    var front := Front(shapes);
    RunExactIff(shapes);
    RunExactIff(front);
    if k == |front| {
      assert shapes[..k] == front;
      ShapeBetween(shapes[k], VerticesOf(front));
    } else {
      assert shapes[..k] == front[..k] && front[k] == shapes[k];
      RunWithin(front, k);
    }
  }
}
