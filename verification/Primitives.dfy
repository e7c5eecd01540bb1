/** The indices that the primitives of an ImDrawList write, as functions of their first vertex, and why
    they stay inside the primitive's own vertices. */
module Primitives {
  import opened DrawState

  /** (ImDrawIdx)n */
  function Idx(n: nat): Index {
    n % 0x10000
  }

  /** Casting a sum of casts is casting the sum. */
  lemma IdxOfSum(n: nat, k: nat)
    ensures Idx(Idx(n) + k) == Idx(n + k)
  {
    var q, r := n / 0x10000, n % 0x10000;
    assert n + k == q * 0x10000 + (r + k);
  }

  /** Two triangles over four vertices: PrimRect, PrimRectUV, PrimQuadUV, and a glyph. */
  function QuadIndices(base: nat): (s: seq<Index>)
    ensures |s| == 6
  {
    [Idx(base), Idx(base + 1), Idx(base + 2), Idx(base), Idx(base + 2), Idx(base + 3)]
  }

  lemma WrapsIff(n: nat)
    ensures n % 0x10000 == n <==> n < 0x10000
  {}

  // ----- AddPolyline

  /** Thin and Thick are anti-aliased, Plain is not. */
  datatype Stroke = Thin | Thick | Plain {
    /** The vertices of k points, or of k segments for Plain. */
    function Vertices(k: nat): nat {
      if Thin? then k * 3 else k * 4
    }

    function Indices(k: nat): nat {
      match this case Thin => k * 12 case Thick => k * 18 case Plain => k * 6
    }
  }

  function NextPoint(i: nat, n: nat): nat {
    if i + 1 == n then 0 else i + 1
  }

  function SegmentCount(n: nat, closed: bool): nat
    requires n >= 2
  {
    if closed then n else n - 1
  }

  function VertexCount(kind: Stroke, n: nat, closed: bool): nat
    requires n >= 2
  {
    kind.Vertices(if kind.Plain? then SegmentCount(n, closed) else n)
  }

  /** The indices of one segment whose end points own the vertices from a and from b. */
  function SegmentIndices(kind: Stroke, a: nat, b: nat): (s: seq<Index>)
    ensures |s| == kind.Indices(1)
  {
    match kind
    case Thin =>
      [Idx(b), Idx(a), Idx(a + 2), Idx(a + 2), Idx(b + 2), Idx(b),
       Idx(b + 1), Idx(a + 1), Idx(a), Idx(a), Idx(b), Idx(b + 1)]
    case Thick =>
      [Idx(b + 1), Idx(a + 1), Idx(a + 2), Idx(a + 2), Idx(b + 2), Idx(b + 1),
       Idx(b + 1), Idx(a + 1), Idx(a), Idx(a), Idx(b), Idx(b + 1),
       Idx(b + 2), Idx(a + 2), Idx(a + 3), Idx(a + 3), Idx(b + 3), Idx(b + 2)]
    case Plain => QuadIndices(a)
  }

  /** The first k segments of a stroke over n points. */
  function StrokeIndices(kind: Stroke, base: nat, n: nat, k: nat): (s: seq<Index>)
    ensures |s| == kind.Indices(k)
  {
    if k == 0 then []
    else
      StrokeIndices(kind, base, n, k - 1)
      + SegmentIndices(kind, base + kind.Vertices(k - 1), base + kind.Vertices(NextPoint(k - 1, n)))
  }

  lemma IndicesStep(kind: Stroke, k: nat, count: nat)
    requires k < count
    ensures kind.Indices(k) + kind.Indices(1) == kind.Indices(k + 1) <= kind.Indices(count)
  {}

  lemma StrokeNext(kind: Stroke, base: nat, n: nat, k: nat, a: nat, b: nat) returns (next: seq<Index>)
    requires a == base + kind.Vertices(k) && b == base + kind.Vertices(NextPoint(k, n))
    ensures next == StrokeIndices(kind, base, n, k + 1)
    ensures next == StrokeIndices(kind, base, n, k) + SegmentIndices(kind, a, b)
  {
    hide SegmentIndices;
    next := StrokeIndices(kind, base, n, k + 1);
  }

  ghost predicate Within(idxs: seq<Index>, from: nat, to: nat) {
    forall k :: 0 <= k < |idxs| ==> from <= idxs[k] < to
  }

  lemma IdxOfSmall(n: nat, count: nat)
    requires n + count <= 0x10000
    ensures forall k :: n <= k < n + count ==> Idx(k) == k
  {}

  lemma SegmentSpan(kind: Stroke, a: nat, b: nat, from: nat, to: nat)
    requires from <= a && a + kind.Vertices(1) <= to <= 0x10000
    requires kind.Plain? || (from <= b && b + kind.Vertices(1) <= to)
    ensures Within(SegmentIndices(kind, a, b), from, to)
  {
    IdxOfSmall(a, kind.Vertices(1));
    if !kind.Plain? {
      IdxOfSmall(b, kind.Vertices(1));
    }
    hide Idx;
    match kind
    case Thin => assert Within(SegmentIndices(Thin, a, b), from, to);
    case Thick => assert Within(SegmentIndices(Thick, a, b), from, to);
    case Plain => assert Within(QuadIndices(a), from, to);
  }

  lemma SegmentStart(kind: Stroke, n: nat, closed: bool, i: nat)
    requires n >= 2 && i < SegmentCount(n, closed)
    ensures kind.Vertices(i) + kind.Vertices(1) <= VertexCount(kind, n, closed)
    ensures kind.Plain? || kind.Vertices(NextPoint(i, n)) + kind.Vertices(1) <= VertexCount(kind, n, closed)
  {}

  /** Segment i uses the vertices of its own end points only. */
  lemma SegmentWithin(kind: Stroke, base: nat, n: nat, closed: bool, i: nat)
    requires n >= 2 && i < SegmentCount(n, closed)
    requires base + VertexCount(kind, n, closed) <= 0x10000
    ensures Within(SegmentIndices(kind, base + kind.Vertices(i), base + kind.Vertices(NextPoint(i, n))),
                   base, base + VertexCount(kind, n, closed))
  {
    SegmentStart(kind, n, closed, i);
    SegmentSpan(kind, base + kind.Vertices(i), base + kind.Vertices(NextPoint(i, n)),
                base, base + VertexCount(kind, n, closed));
  }

  lemma WithinConcat(s: seq<Index>, t: seq<Index>, from: nat, to: nat)
    requires Within(s, from, to) && Within(t, from, to)
    ensures Within(s + t, from, to)
  {}

  lemma NoStroke(kind: Stroke, base: nat, n: nat, from: nat, to: nat)
    ensures StrokeIndices(kind, base, n, 0) == [] && Within([], from, to)
  {}

  lemma {:induction false} StrokeWithin(kind: Stroke, base: nat, n: nat, closed: bool, k: nat)
    requires n >= 2 && k <= SegmentCount(n, closed)
    requires base + VertexCount(kind, n, closed) <= 0x10000
    ensures Within(StrokeIndices(kind, base, n, k), base, base + VertexCount(kind, n, closed))
  {
    hide SegmentIndices, StrokeIndices, Within, VertexCount, Stroke.Vertices, Stroke.Indices, NextPoint;
    var to := base + VertexCount(kind, n, closed);
    if k == 0 {
      NoStroke(kind, base, n, base, to);
    } else {
      var a, b := base + kind.Vertices(k - 1), base + kind.Vertices(NextPoint(k - 1, n));
      StrokeWithin(kind, base, n, closed, k - 1);
      SegmentWithin(kind, base, n, closed, k - 1);
      WithinConcat(StrokeIndices(kind, base, n, k - 1), SegmentIndices(kind, a, b), base, to);
      var next := StrokeNext(kind, base, n, k - 1, a, b);
    }
  }

  // ----- AddConvexPolyFilled

  function FanIndices(base: nat, step: nat, n: nat): (s: seq<Index>)
    ensures |s| == if n < 2 then 0 else (n - 2) * 3
  {
    if n <= 2 then []
    else FanIndices(base, step, n - 1) + [Idx(base), Idx(base + (n - 2) * step), Idx(base + (n - 1) * step)]
  }

  function PreviousPoint(i: nat, n: nat): nat
    requires i < n
  {
    if i == 0 then n - 1 else i - 1
  }

  /** The two triangles of the fringe between a point and the one before it. */
  function FringeSegment(base: nat, i0: nat, i1: nat): (s: seq<Index>)
    ensures |s| == 6
  {
    [Idx(base + i1 * 2), Idx(base + i0 * 2), Idx(base + 1 + i0 * 2),
     Idx(base + 1 + i0 * 2), Idx(base + 1 + i1 * 2), Idx(base + i1 * 2)]
  }

  function FringeIndices(base: nat, n: nat, k: nat): (s: seq<Index>)
    requires k <= n
    ensures |s| == k * 6
  {
    if k == 0 then [] else FringeIndices(base, n, k - 1) + FringeSegment(base, PreviousPoint(k - 1, n), k - 1)
  }

  function FillIndices(base: nat, n: nat, antiAliased: bool): seq<Index> {
    if antiAliased then FanIndices(base, 2, n) + FringeIndices(base, n, n) else FanIndices(base, 1, n)
  }

  function FillVertexCount(n: nat, antiAliased: bool): nat {
    if antiAliased then n * 2 else n
  }

  /** What AddConvexPolyFilled asks PrimReserve for. */
  function FillReserve(n: nat, antiAliased: bool): int {
    if antiAliased then (n - 2) * 3 + n * 6 else (n - 2) * 3
  }

  /** The reserve matches what is written exactly from two points on: with fewer, the code would write
      past its reserve or take indices away from earlier primitives. */
  lemma FillReserveMatchesIff(base: nat, n: nat, antiAliased: bool)
    ensures FillReserve(n, antiAliased) == |FillIndices(base, n, antiAliased)| <==> n >= 2
  {}

  lemma {:induction false} FanWithin(base: nat, step: nat, n: nat)
    requires (step == 1 || step == 2) && base + n * step <= 0x10000
    ensures Within(FanIndices(base, step, n), base, base + n * step)
  {
    if n <= 2 {
    } else {
      FanWithin(base, step, n - 1);
      FanNext(base, step, n);
    }
  }

  lemma FanNext(base: nat, step: nat, n: nat)
    requires n > 2 && (step == 1 || step == 2) && base + n * step <= 0x10000
    requires Within(FanIndices(base, step, n - 1), base, base + (n - 1) * step)
    ensures Within(FanIndices(base, step, n), base, base + n * step)
  {
    hide Within, FanIndices, Idx;
    var to := base + n * step;
    var triangle := FanTip(base, step, n, to);
    WithinWider(FanIndices(base, step, n - 1), base, base + (n - 1) * step, to);
    WithinConcat(FanIndices(base, step, n - 1), triangle, base, to);
  }

  lemma WithinWider(s: seq<Index>, from: nat, to: nat, wider: nat)
    requires Within(s, from, to) && to <= wider
    ensures Within(s, from, wider)
  {}

  lemma FanTip(base: nat, step: nat, n: nat, to: nat) returns (triangle: seq<Index>)
    requires n > 2 && (step == 1 || step == 2) && to == base + n * step <= 0x10000
    ensures FanIndices(base, step, n) == FanIndices(base, step, n - 1) + triangle
    ensures Within(triangle, base, to)
  {
    hide Idx;
    triangle := [Idx(base), Idx(base + (n - 2) * step), Idx(base + (n - 1) * step)];
    IdxOfSmall(base, n * step);
    assert (n - 2) * step < n * step && (n - 1) * step < n * step;
  }

  lemma {:induction false} FringeWithin(base: nat, n: nat, k: nat)
    requires k <= n && base + n * 2 <= 0x10000
    ensures Within(FringeIndices(base, n, k), base, base + n * 2)
  {
    IdxOfSmall(base, n * 2);
    hide Idx;
    if k > 0 {
      FringeWithin(base, n, k - 1);
      var i0, i1 := PreviousPoint(k - 1, n), k - 1;
      assert i0 < n;
      assert Within(FringeSegment(base, i0, i1), base, base + n * 2);
      WithinConcat(FringeIndices(base, n, k - 1), FringeSegment(base, i0, i1), base, base + n * 2);
    }
  }

  lemma FillWithin(base: nat, n: nat, antiAliased: bool)
    requires base + FillVertexCount(n, antiAliased) <= 0x10000
    ensures Within(FillIndices(base, n, antiAliased), base, base + FillVertexCount(n, antiAliased))
  {
    FanWithin(base, if antiAliased then 2 else 1, n);
    if antiAliased {
      FringeWithin(base, n, n);
    }
  }

  // ----- Every vertex is drawn

  ghost predicate Covers(idxs: seq<Index>, from: nat, to: nat) {
    forall v :: from <= v < to ==> v in idxs
  }

  lemma {:induction false} FringeCovers(base: nat, n: nat, k: nat)
    requires k <= n && base + n * 2 <= 0x10000
    ensures Covers(FringeIndices(base, n, k), base, base + k * 2)
  {
    if k > 0 {
      FringeCovers(base, n, k - 1);
      IdxOfSmall(base, n * 2);
      hide Idx;
      var head, tail := FringeIndices(base, n, k - 1), FringeSegment(base, PreviousPoint(k - 1, n), k - 1);
      assert tail[0] == base + (k - 1) * 2 && tail[4] == base + (k - 1) * 2 + 1;
      forall v | base <= v < base + k * 2
        ensures v in head + tail
      {
        if v < base + (k - 1) * 2 {
          assert v in head;
        } else {
          assert v in tail;
        }
      }
    }
  }

  /** No vertex of an anti-aliased fill, which draws every point once inside and once outside, is wasted. */
  lemma FillCovers(base: nat, n: nat)
    requires base + n * 2 <= 0x10000
    ensures Covers(FillIndices(base, n, true), base, base + n * 2)
  {
    FringeCovers(base, n, n);
    forall v | base <= v < base + n * 2
      ensures v in FillIndices(base, n, true)
    {
      assert v in FringeIndices(base, n, n);
    }
  }

  /** The fan: triangle t joins the first point with points t + 1 and t + 2. */
  lemma {:induction false} FanTriangle(base: nat, step: nat, n: nat, t: nat)
    requires n >= 3 && t < n - 2
    ensures FanIndices(base, step, n)[t * 3..t * 3 + 3]
            == [Idx(base), Idx(base + (t + 1) * step), Idx(base + (t + 2) * step)]
    decreases n
  {
    var front := FanIndices(base, step, n - 1);
    if t < n - 3 {
      FanTriangle(base, step, n - 1, t);
      assert FanIndices(base, step, n)[t * 3..t * 3 + 3] == front[t * 3..t * 3 + 3];
    }
  }

  /** Past 0x10000 the indices wrap: a primitive whose vertices cross the limit names at least one vertex
      that is not its own. */
  lemma QuadWithinIff(base: nat)
    ensures Within(QuadIndices(base), base, base + 4) <==> base + 4 <= 0x10000
  {
    if base + 4 > 0x10000 {
      assert QuadIndices(base)[5] < base;
    }
  }
}
