/** How often the triangles of strokes and fills use each edge: once for every listing among the outer edges, twice
    for every listing among the inner ones.  `Watertight.dfy` shows that no edge is listed twice. */
module Mesh {
  import opened DrawState
  import opened Primitives

  /** An edge between two vertices, in either direction. */
  datatype Edge = Edge(p: nat, q: nat)

  function Is(e: Edge, u: nat, v: nat): nat {
    if e == Edge(u, v) || e == Edge(v, u) then 1 else 0
  }

  /** How often the edge between u and v occurs. */
  function Count(es: seq<Edge>, u: nat, v: nat): nat {
    if es == [] then 0 else Count(Front(es), u, v) + Is(Last(es), u, v)
  }

  function Sides(a: nat, b: nat, c: nat): seq<Edge> {
    [Edge(a, b), Edge(b, c), Edge(c, a)]
  }

  /** The sides of all triangles. */
  function Edges(idxs: seq<Index>): seq<Edge>
    requires |idxs| % 3 == 0
  {
    if idxs == [] then []
    else
      var n := |idxs|;
      Edges(idxs[..n - 3]) + Sides(idxs[n - 3], idxs[n - 2], idxs[n - 1])
  }

  /** How many triangles have the edge between u and v. */
  function Uses(idxs: seq<Index>, u: nat, v: nat): nat
    requires |idxs| % 3 == 0
  {
    Count(Edges(idxs), u, v)
  }

  lemma {:induction false} CountConcat(a: seq<Edge>, b: seq<Edge>, u: nat, v: nat)
    ensures Count(a + b, u, v) == Count(a, u, v) + Count(b, u, v)
    decreases |b|
  {
    if b == [] {
      assert a + b == a;
    } else {
      assert Front(a + b) == a + Front(b);
      CountConcat(a, Front(b), u, v);
    }
  }

  lemma EdgesTail(s: seq<Index>, a: Index, b: Index, c: Index)
    requires |s| % 3 == 0
    ensures Edges(s + [a, b, c]) == Edges(s) + Sides(a, b, c)
  {
    hide Sides;
    var all := s + [a, b, c];
    assert all[..|all| - 3] == s;
  }

  lemma {:induction false} EdgesConcat(s: seq<Index>, t: seq<Index>)
    requires |s| % 3 == 0 && |t| % 3 == 0
    ensures |s + t| % 3 == 0 && Edges(s + t) == Edges(s) + Edges(t)
    decreases |t|
  {
    hide Edges, Sides;
    if t == [] {
      NoEdges();
      assert s + t == s;
    } else {
      var n := |t|;
      var (head, a, b, c) := (t[..n - 3], t[n - 3], t[n - 2], t[n - 1]);
      assert t == head + [a, b, c] && s + t == (s + head) + [a, b, c];
      EdgesConcat(s, head);
      EdgesTail(head, a, b, c);
      EdgesTail(s + head, a, b, c);
    }
  }

  lemma NoEdges()
    ensures Edges([]) == []
  {}

  lemma UsesConcat(s: seq<Index>, t: seq<Index>, u: nat, v: nat)
    requires |s| % 3 == 0 && |t| % 3 == 0
    ensures |s + t| % 3 == 0 && Uses(s + t, u, v) == Uses(s, u, v) + Uses(t, u, v)
  {
    EdgesConcat(s, t);
    CountConcat(Edges(s), Edges(t), u, v);
  }

  lemma TriangleUses(a: Index, b: Index, c: Index, u: nat, v: nat)
    ensures Uses([a, b, c], u, v) == Is(Edge(a, b), u, v) + Is(Edge(b, c), u, v) + Is(Edge(c, a), u, v)
  {
    hide Is;
    assert [a, b, c][..0] == [];
    assert Edges([a, b, c]) == [Edge(a, b)] + ([Edge(b, c)] + [Edge(c, a)]);
    CountConcat([Edge(a, b)], [Edge(b, c)] + [Edge(c, a)], u, v);
    CountConcat([Edge(b, c)], [Edge(c, a)], u, v);
    CountOne(Edge(a, b), u, v);
    CountOne(Edge(b, c), u, v);
    CountOne(Edge(c, a), u, v);
  }

  lemma CountOne(e: Edge, u: nat, v: nat)
    ensures Count([e], u, v) == Is(e, u, v)
  {
    assert Front([e]) == [];
  }

  lemma Undirected(p: nat, q: nat, u: nat, v: nat)
    ensures Is(Edge(p, q), u, v) == Is(Edge(q, p), u, v)
  {}

  // ----- A band between two lanes of vertices

  /** The two triangles of the band that runs from (a, c) to (b, d). */
  function Band(a: nat, b: nat, c: nat, d: nat): (s: seq<Index>)
    ensures |s| == 6
  {
    [Idx(b), Idx(a), Idx(c), Idx(c), Idx(d), Idx(b)]
  }

  /** They share the diagonal from c to b. */
  lemma BandUses(a: nat, b: nat, c: nat, d: nat, u: nat, v: nat)
    requires a < 0x10000 && b < 0x10000 && c < 0x10000 && d < 0x10000
    ensures Uses(Band(a, b, c, d), u, v)
            == Is(Edge(a, b), u, v) + Is(Edge(c, d), u, v) + Is(Edge(a, c), u, v) + Is(Edge(b, d), u, v)
              + 2 * Is(Edge(c, b), u, v)
  {
    assert Band(a, b, c, d) == [b, a, c] + [c, d, b];
    UsesConcat([b, a, c], [c, d, b], u, v);
    TriangleUses(b, a, c, u, v);
    TriangleUses(c, d, b, u, v);
  }

  // ----- Strokes

  /** The outer edges of a segment whose end points own the vertices from a and from b. */
  function Rim(kind: Stroke, a: nat, b: nat): seq<Edge> {
    if kind.Thin? then [Edge(a + 1, b + 1), Edge(a + 2, b + 2)] else [Edge(a, b), Edge(a + 3, b + 3)]
  }

  /** The edges inside a segment: its middle lines and the diagonals of its bands. */
  function Inner(kind: Stroke, a: nat, b: nat): seq<Edge> {
    if kind.Thin? then [Edge(a, b), Edge(a + 2, b), Edge(a, b + 1)]
    else [Edge(a + 1, b + 1), Edge(a + 2, b + 2), Edge(a + 2, b + 1), Edge(a, b + 1), Edge(a + 3, b + 2)]
  }

  /** The edges across the stroke at a point. */
  function Cross(kind: Stroke, p: nat): seq<Edge> {
    if kind.Thin? then [Edge(p, p + 1), Edge(p, p + 2)] else [Edge(p, p + 1), Edge(p + 1, p + 2), Edge(p + 2, p + 3)]
  }

  function Rims(kind: Stroke, base: nat, n: nat, k: nat): seq<Edge> {
    if k == 0 then []
    else Rims(kind, base, n, k - 1) + Rim(kind, base + kind.Vertices(k - 1), base + kind.Vertices(NextPoint(k - 1, n)))
  }

  function Inners(kind: Stroke, base: nat, n: nat, k: nat): seq<Edge> {
    if k == 0 then []
    else
      Inners(kind, base, n, k - 1)
      + Inner(kind, base + kind.Vertices(k - 1), base + kind.Vertices(NextPoint(k - 1, n)))
  }

  /** The edges across the stroke at points lo..hi. */
  function Crosses(kind: Stroke, base: nat, lo: nat, hi: nat): seq<Edge>
    requires lo <= hi
    decreases hi
  {
    if lo == hi then [] else Crosses(kind, base, lo, hi - 1) + Cross(kind, base + kind.Vertices(hi - 1))
  }

  lemma CountTwo(e: Edge, f: Edge, u: nat, v: nat)
    ensures Count([e, f], u, v) == Is(e, u, v) + Is(f, u, v)
  {
    hide Is;
    assert [e, f] == [e] + [f];
    CountConcat([e], [f], u, v);
    CountOne(e, u, v);
    CountOne(f, u, v);
  }

  lemma CountThree(e: Edge, f: Edge, g: Edge, u: nat, v: nat)
    ensures Count([e, f, g], u, v) == Is(e, u, v) + Is(f, u, v) + Is(g, u, v)
  {
    hide Is;
    assert [e, f, g] == [e, f] + [g];
    CountConcat([e, f], [g], u, v);
    CountTwo(e, f, u, v);
    CountOne(g, u, v);
  }

  ghost predicate SegmentMesh(kind: Stroke, a: nat, b: nat, u: nat, v: nat)
    requires !kind.Plain?
  {
    Uses(SegmentIndices(kind, a, b), u, v)
    == Count(Rim(kind, a, b), u, v) + 2 * Count(Inner(kind, a, b), u, v) + Count(Cross(kind, a), u, v)
      + Count(Cross(kind, b), u, v)
  }

  /** The bands of a segment. */
  lemma SegmentBands(kind: Stroke, a: nat, b: nat)
    ensures kind.Thin? ==> SegmentIndices(kind, a, b) == Band(a, b, a + 2, b + 2) + Band(a + 1, b + 1, a, b)
    ensures kind.Thick? ==>
              SegmentIndices(kind, a, b)
              == Band(a + 1, b + 1, a + 2, b + 2) + Band(a + 1, b + 1, a, b) + Band(a + 2, b + 2, a + 3, b + 3)
  {
    hide Idx;
  }

  lemma ThinSegment(a: nat, b: nat, u: nat, v: nat)
    requires a + 3 <= 0x10000 && b + 3 <= 0x10000
    ensures SegmentMesh(Thin, a, b, u, v)
  {
    hide Is, Count, Uses, Band, SegmentIndices;
    SegmentBands(Thin, a, b);
    UsesConcat(Band(a, b, a + 2, b + 2), Band(a + 1, b + 1, a, b), u, v);
    BandUses(a, b, a + 2, b + 2, u, v);
    BandUses(a + 1, b + 1, a, b, u, v);
    CountTwo(Edge(a + 1, b + 1), Edge(a + 2, b + 2), u, v);
    CountThree(Edge(a, b), Edge(a + 2, b), Edge(a, b + 1), u, v);
    CountTwo(Edge(a, a + 1), Edge(a, a + 2), u, v);
    CountTwo(Edge(b, b + 1), Edge(b, b + 2), u, v);
    Undirected(a, a + 1, u, v);
    Undirected(b, b + 1, u, v);
  }

  lemma ThickSegment(a: nat, b: nat, u: nat, v: nat)
    requires a + 4 <= 0x10000 && b + 4 <= 0x10000
    ensures SegmentMesh(Thick, a, b, u, v)
  {
    hide Is, Count, Uses, SegmentIndices, Inner;
    ThickUses(a, b, u, v);
    ThickInner(a, b, u, v);
    CountTwo(Edge(a, b), Edge(a + 3, b + 3), u, v);
    CountThree(Edge(a, a + 1), Edge(a + 1, a + 2), Edge(a + 2, a + 3), u, v);
    CountThree(Edge(b, b + 1), Edge(b + 1, b + 2), Edge(b + 2, b + 3), u, v);
  }

  lemma ThickUses(a: nat, b: nat, u: nat, v: nat)
    requires a + 4 <= 0x10000 && b + 4 <= 0x10000
    ensures Uses(SegmentIndices(Thick, a, b), u, v)
            == Is(Edge(a, b), u, v) + 2 * Is(Edge(a + 1, b + 1), u, v) + 2 * Is(Edge(a + 2, b + 2), u, v)
              + Is(Edge(a + 3, b + 3), u, v)
               + Is(Edge(a, a + 1), u, v) + Is(Edge(a + 1, a + 2), u, v) + Is(Edge(a + 2, a + 3), u, v)
               + Is(Edge(b, b + 1), u, v) + Is(Edge(b + 1, b + 2), u, v) + Is(Edge(b + 2, b + 3), u, v)
               + 2 * (Is(Edge(a + 2, b + 1), u, v) + Is(Edge(a, b + 1), u, v) + Is(Edge(a + 3, b + 2), u, v))
  {
    hide Is, Uses, SegmentIndices, Band;
    SegmentBands(Thick, a, b);
    var (middle, left, right) := (Band(a + 1, b + 1, a + 2, b + 2), Band(a + 1, b + 1, a, b),
      Band(a + 2, b + 2, a + 3, b + 3));
    UsesConcat(middle, left, u, v);
    UsesConcat(middle + left, right, u, v);
    BandUses(a + 1, b + 1, a + 2, b + 2, u, v);
    BandUses(a + 1, b + 1, a, b, u, v);
    BandUses(a + 2, b + 2, a + 3, b + 3, u, v);
    Undirected(a, a + 1, u, v);
    Undirected(b, b + 1, u, v);
  }

  lemma ThickInner(a: nat, b: nat, u: nat, v: nat)
    ensures Count(Inner(Thick, a, b), u, v)
            == Is(Edge(a + 1, b + 1), u, v) + Is(Edge(a + 2, b + 2), u, v)
               + Is(Edge(a + 2, b + 1), u, v) + Is(Edge(a, b + 1), u, v) + Is(Edge(a + 3, b + 2), u, v)
  {
    hide Is, Count;
    var (lines, diagonals) := ([Edge(a + 1, b + 1), Edge(a + 2, b + 2)],
      [Edge(a + 2, b + 1), Edge(a, b + 1), Edge(a + 3, b + 2)]);
    assert Inner(Thick, a, b) == lines + diagonals;
    CountConcat(lines, diagonals, u, v);
    CountTwo(Edge(a + 1, b + 1), Edge(a + 2, b + 2), u, v);
    CountThree(Edge(a + 2, b + 1), Edge(a, b + 1), Edge(a + 3, b + 2), u, v);
  }

  /** The first k segments of a stroke, not counting one that leads back to the start: across the stroke,
      only the edges at the two ends belong to one triangle. */
  lemma {:induction false} OpenStroke(kind: Stroke, base: nat, n: nat, k: nat, u: nat, v: nat)
    requires !kind.Plain? && k < n && base + kind.Vertices(n) <= 0x10000
    ensures |StrokeIndices(kind, base, n, k)| % 3 == 0
    ensures Uses(StrokeIndices(kind, base, n, k), u, v)
            + Count(Cross(kind, base), u, v) + Count(Cross(kind, base + kind.Vertices(k)), u, v)
            == Count(Rims(kind, base, n, k), u, v) + 2 * Count(Inners(kind, base, n, k), u, v)
               + 2 * Count(Crosses(kind, base, 0, k + 1), u, v)
  {
    hide Uses, Count, SegmentIndices, Rim, Inner, Cross, SegmentMesh;
    if k == 0 {
      NoUses(u, v);
      assert Crosses(kind, base, 0, 1) == Crosses(kind, base, 0, 0) + Cross(kind, base);
      assert [] + Cross(kind, base) == Cross(kind, base);
    } else {
      OpenStroke(kind, base, n, k - 1, u, v);
      OneMoreSegment(kind, base, n, k, u, v);
      CountConcat(Crosses(kind, base, 0, k), Cross(kind, base + kind.Vertices(k)), u, v);
    }
  }

  lemma NoUses(u: nat, v: nat)
    ensures Uses([], u, v) == 0 && Count([], u, v) == 0
  {}

  /** What segment k adds. */
  lemma OneMoreSegment(kind: Stroke, base: nat, n: nat, k: nat, u: nat, v: nat)
    requires !kind.Plain? && 1 <= k <= n && base + kind.Vertices(n) <= 0x10000
    ensures |StrokeIndices(kind, base, n, k)| % 3 == 0 && |StrokeIndices(kind, base, n, k - 1)| % 3 == 0
    ensures Uses(StrokeIndices(kind, base, n, k), u, v) - Uses(StrokeIndices(kind, base, n, k - 1), u, v)
            == Count(Rims(kind, base, n, k), u, v) - Count(Rims(kind, base, n, k - 1), u, v)
               + 2 * Count(Inners(kind, base, n, k), u, v) - 2 * Count(Inners(kind, base, n, k - 1), u, v)
               + Count(Cross(kind, base + kind.Vertices(k - 1)), u, v)
               + Count(Cross(kind, base + kind.Vertices(NextPoint(k - 1, n))), u, v)
  {
    hide Uses, Count, SegmentIndices, Rim, Inner, Cross, Stroke.Vertices;
    var (a, b) := (base + kind.Vertices(k - 1), base + kind.Vertices(NextPoint(k - 1, n)));
    SegmentMeshes(kind, base, n, k - 1, u, v);
    var segment := SegmentIndices(kind, a, b);
    Threefold(kind, k);
    Threefold(kind, k - 1);
    Threefold(kind, 1);
    UsesConcat(StrokeIndices(kind, base, n, k - 1), segment, u, v);
    CountConcat(Rims(kind, base, n, k - 1), Rim(kind, a, b), u, v);
    CountConcat(Inners(kind, base, n, k - 1), Inner(kind, a, b), u, v);
  }

  lemma Threefold(kind: Stroke, k: nat)
    ensures kind.Indices(k) % 3 == 0
  {
    assert kind.Indices(k) == 3 * (if kind.Thin? then k * 4 else if kind.Thick? then k * 6 else k * 2);
  }

  lemma SegmentMeshes(kind: Stroke, base: nat, n: nat, i: nat, u: nat, v: nat)
    requires !kind.Plain? && i < n && base + kind.Vertices(n) <= 0x10000
    ensures SegmentMesh(kind, base + kind.Vertices(i), base + kind.Vertices(NextPoint(i, n)), u, v)
  {
    hide SegmentMesh;
    SegmentFits(kind, base, n, i);
    if kind.Thin? {
      ThinSegment(base + kind.Vertices(i), base + kind.Vertices(NextPoint(i, n)), u, v);
    } else {
      ThickSegment(base + kind.Vertices(i), base + kind.Vertices(NextPoint(i, n)), u, v);
    }
  }

  lemma SegmentFits(kind: Stroke, base: nat, n: nat, i: nat)
    requires !kind.Plain? && i < n && base + kind.Vertices(n) <= 0x10000
    ensures base + kind.Vertices(i) + kind.Vertices(1) <= 0x10000
    ensures base + kind.Vertices(NextPoint(i, n)) + kind.Vertices(1) <= 0x10000
  {}

  /** A closed anti-aliased stroke: the edges of its two rims once, the inner edges twice. */
  lemma ClosedStrokeEdges(kind: Stroke, base: nat, n: nat, u: nat, v: nat)
    requires !kind.Plain? && n >= 2 && base + kind.Vertices(n) <= 0x10000
    ensures |StrokeIndices(kind, base, n, n)| % 3 == 0
    ensures Uses(StrokeIndices(kind, base, n, n), u, v)
            == Count(Rims(kind, base, n, n), u, v)
               + 2 * (Count(Inners(kind, base, n, n), u, v) + Count(Crosses(kind, base, 0, n), u, v))
  {
    hide Uses, Count, Rims, Inners, Cross, StrokeIndices;
    OpenStroke(kind, base, n, n - 1, u, v);
    OneMoreSegment(kind, base, n, n, u, v);
    assert NextPoint(n - 1, n) == 0 && kind.Vertices(0) == 0;
  }

  /** An open one has its two ends besides. */
  lemma OpenStrokeEdges(kind: Stroke, base: nat, n: nat, u: nat, v: nat)
    requires !kind.Plain? && n >= 2 && base + kind.Vertices(n) <= 0x10000
    ensures |StrokeIndices(kind, base, n, n - 1)| % 3 == 0
    ensures Uses(StrokeIndices(kind, base, n, n - 1), u, v)
            == Count(Rims(kind, base, n, n - 1), u, v)
               + Count(Cross(kind, base), u, v) + Count(Cross(kind, base + kind.Vertices(n - 1)), u, v)
               + 2 * (Count(Inners(kind, base, n, n - 1), u, v) + Count(Crosses(kind, base, 1, n - 1), u, v))
  {
    hide Uses, Count, Rims, Inners, Cross, StrokeIndices;
    OpenStroke(kind, base, n, n - 1, u, v);
    CrossesFromOne(kind, base, n - 1, u, v);
    CountConcat(Crosses(kind, base, 0, n - 1), Cross(kind, base + kind.Vertices(n - 1)), u, v);
  }

  lemma {:induction false} CrossesFromOne(kind: Stroke, base: nat, hi: nat, u: nat, v: nat)
    requires hi >= 1 && !kind.Plain?
    ensures Count(Crosses(kind, base, 0, hi), u, v)
            == Count(Cross(kind, base), u, v) + Count(Crosses(kind, base, 1, hi), u, v)
    decreases hi
  {
    hide Count, Cross;
    if hi == 1 {
      NoUses(u, v);
      assert Crosses(kind, base, 0, 1) == Crosses(kind, base, 0, 0) + Cross(kind, base + kind.Vertices(0));
      assert [] + Cross(kind, base) == Cross(kind, base);
    } else {
      CrossesFromOne(kind, base, hi - 1, u, v);
      var last := Cross(kind, base + kind.Vertices(hi - 1));
      CountConcat(Crosses(kind, base, 0, hi - 1), last, u, v);
      CountConcat(Crosses(kind, base, 1, hi - 1), last, u, v);
    }
  }

  // ----- Fills

  function Point(base: nat, step: nat, i: nat): nat {
    base + i * step
  }

  /** The sides of a polygon that lead to its first k points, each from the point before. */
  function Ring(base: nat, step: nat, n: nat, k: nat): seq<Edge>
    requires k <= n
  {
    if k == 0 then []
    else Ring(base, step, n, k - 1) + [Edge(Point(base, step, PreviousPoint(k - 1, n)), Point(base, step, k - 1))]
  }

  /** The diagonals from the first point of a polygon to points 2..n - 2. */
  function Diagonals(base: nat, step: nat, n: nat): seq<Edge> {
    if n <= 3 then [] else Diagonals(base, step, n - 1) + [Edge(base, Point(base, step, n - 2))]
  }

  lemma CountSnoc(es: seq<Edge>, e: Edge, u: nat, v: nat)
    ensures Count(es + [e], u, v) == Count(es, u, v) + Is(e, u, v)
  {
    CountConcat(es, [e], u, v);
    CountOne(e, u, v);
  }

  /** The sides of the first n points without the closing one. */
  function Path(base: nat, step: nat, n: nat): seq<Edge> {
    if n <= 1 then [] else Path(base, step, n - 1) + [Edge(Point(base, step, n - 2), Point(base, step, n - 1))]
  }

  lemma {:induction false} RingIsClosedPath(base: nat, step: nat, n: nat, k: nat, u: nat, v: nat)
    requires 1 <= k <= n
    ensures Count(Ring(base, step, n, k), u, v)
            == Count(Path(base, step, k), u, v) + Is(Edge(base, Point(base, step, n - 1)), u, v)
    decreases k
  {
    hide Is, Count, Point;
    FirstPoint(base, step);
    if k == 1 {
      NoUses(u, v);
      assert Ring(base, step, n, 1) == Ring(base, step, n, 0) + [Edge(Point(base, step, n - 1), Point(base, step, 0))];
      CountSnoc([], Edge(Point(base, step, n - 1), base), u, v);
      Undirected(base, Point(base, step, n - 1), u, v);
    } else {
      var side := Edge(Point(base, step, k - 2), Point(base, step, k - 1));
      RingIsClosedPath(base, step, n, k - 1, u, v);
      CountSnoc(Ring(base, step, n, k - 1), side, u, v);
      CountSnoc(Path(base, step, k - 1), side, u, v);
    }
  }

  lemma FirstPoint(base: nat, step: nat)
    ensures Point(base, step, 0) == base
  {}

  lemma PointFits(base: nat, step: nat, i: nat, n: nat)
    requires i < n && base + n * step <= 0x10000 && step >= 1
    ensures base < 0x10000 && Point(base, step, i) < 0x10000
  {}

  lemma {:induction false} OpenFan(base: nat, step: nat, n: nat, u: nat, v: nat)
    requires n >= 3 && step >= 1 && base + n * step <= 0x10000
    ensures |FanIndices(base, step, n)| % 3 == 0
    ensures Uses(FanIndices(base, step, n), u, v)
            == Count(Path(base, step, n), u, v) + Is(Edge(base, Point(base, step, n - 1)), u, v)
              + 2 * Count(Diagonals(base, step, n), u, v)
    decreases n
  {
    hide Is, Count, Uses, Point;
    var (p, q) := (Point(base, step, n - 2), Point(base, step, n - 1));
    FanGrows(base, step, n, u, v);
    CountSnoc(Path(base, step, n - 1), Edge(p, q), u, v);
    Undirected(base, q, u, v);
    if n == 3 {
      NoUses(u, v);
      FirstPoint(base, step);
      CountSnoc(Path(base, step, 1), Edge(base, p), u, v);
    } else {
      ShorterFits(base, step, n);
      OpenFan(base, step, n - 1, u, v);
      CountSnoc(Diagonals(base, step, n - 1), Edge(base, p), u, v);
    }
  }

  lemma ShorterFits(base: nat, step: nat, n: nat)
    requires n >= 1 && base + n * step <= 0x10000
    ensures base + (n - 1) * step <= 0x10000
  {}

  lemma FanGrows(base: nat, step: nat, n: nat, u: nat, v: nat)
    requires n >= 3 && step >= 1 && base + n * step <= 0x10000
    ensures |FanIndices(base, step, n)| % 3 == 0 && |FanIndices(base, step, n - 1)| % 3 == 0
    ensures var (p, q) := (Point(base, step, n - 2), Point(base, step, n - 1));
            Uses(FanIndices(base, step, n), u, v)
            == Uses(FanIndices(base, step, n - 1), u, v) + Is(Edge(base, p), u, v) + Is(Edge(p, q), u, v)
              + Is(Edge(q, base), u, v)
  {
    hide Is, Uses, FanIndices, Point;
    PointFits(base, step, n - 2, n);
    PointFits(base, step, n - 1, n);
    var (p, q) := (Point(base, step, n - 2), Point(base, step, n - 1));
    FanTail(base, step, n);
    UsesConcat(FanIndices(base, step, n - 1), [base, p, q], u, v);
    TriangleUses(base, p, q, u, v);
  }

  lemma FanTail(base: nat, step: nat, n: nat)
    requires n >= 3 && step >= 1 && base + n * step <= 0x10000
    ensures Point(base, step, n - 2) < 0x10000 && Point(base, step, n - 1) < 0x10000 && base < 0x10000
    ensures FanIndices(base, step, n) == FanIndices(base, step, n - 1)
            + [base, Point(base, step, n - 2), Point(base, step, n - 1)]
  {
    PointFits(base, step, n - 2, n);
    PointFits(base, step, n - 1, n);
  }

  /** A plain fill: the polygon's sides once, its diagonals from the first point twice. */
  lemma FanEdges(base: nat, step: nat, n: nat, u: nat, v: nat)
    requires n >= 3 && step >= 1 && base + n * step <= 0x10000
    ensures |FanIndices(base, step, n)| % 3 == 0
    ensures Uses(FanIndices(base, step, n), u, v)
            == Count(Ring(base, step, n, n), u, v) + 2 * Count(Diagonals(base, step, n), u, v)
  {
    hide Is, Count, Uses, Ring, Path, FanIndices, Diagonals;
    OpenFan(base, step, n, u, v);
    RingIsClosedPath(base, step, n, n, u, v);
  }

  /** The edges from each of the first k points outwards. */
  function Spokes(base: nat, k: nat): seq<Edge> {
    if k == 0 then [] else Spokes(base, k - 1) + [Edge(Point(base, 2, k - 1), Point(base + 1, 2, k - 1))]
  }

  /** The diagonals of the first k pieces of the fringe. */
  function FringeDiagonals(base: nat, n: nat, k: nat): seq<Edge>
    requires k <= n
  {
    if k == 0 then []
    else FringeDiagonals(base, n, k - 1) + [Edge(Point(base + 1, 2, PreviousPoint(k - 1, n)), Point(base, 2, k - 1))]
  }

  function Spoke(base: nat, i: nat): Edge {
    Edge(Point(base, 2, i), Point(base + 1, 2, i))
  }

  lemma {:induction false} OpenFringe(base: nat, n: nat, k: nat, u: nat, v: nat)
    requires 1 <= k <= n && base + n * 2 <= 0x10000
    ensures |FringeIndices(base, n, k)| % 3 == 0
    ensures Uses(FringeIndices(base, n, k), u, v) + Is(Spoke(base, k - 1), u, v)
            == Count(Ring(base, 2, n, k), u, v) + Count(Ring(base + 1, 2, n, k), u, v)
               + Is(Spoke(base, n - 1), u, v) + 2 * Count(Spokes(base, k), u, v)
                 + 2 * Count(FringeDiagonals(base, n, k), u, v)
    decreases k
  {
    hide Is, Count, Uses, Point, FringeSegment;
    FringeGrows(base, n, k, u, v);
    FringeEdgesGrow(base, n, k, u, v);
    if k == 1 {
      NoUses(u, v);
    } else {
      OpenFringe(base, n, k - 1, u, v);
    }
  }

  lemma FringeGrows(base: nat, n: nat, k: nat, u: nat, v: nat)
    requires 1 <= k <= n && base + n * 2 <= 0x10000
    ensures |FringeIndices(base, n, k)| % 3 == 0 && |FringeIndices(base, n, k - 1)| % 3 == 0
    ensures var (i, j) := (PreviousPoint(k - 1, n), k - 1);
            Uses(FringeIndices(base, n, k), u, v) == Uses(FringeIndices(base, n, k - 1), u, v)
            + Is(Edge(Point(base, 2, i), Point(base, 2, j)), u, v)
              + Is(Edge(Point(base + 1, 2, i), Point(base + 1, 2, j)), u, v)
            + Is(Spoke(base, i), u, v) + Is(Spoke(base, j), u, v)
              + 2 * Is(Edge(Point(base + 1, 2, i), Point(base, 2, j)), u, v)
  {
    hide Is, Uses, Idx, Band;
    var (i, j) := (PreviousPoint(k - 1, n), k - 1);
    FringeIsBand(base, i, j);
    UsesConcat(FringeIndices(base, n, k - 1), FringeSegment(base, i, j), u, v);
    BandUses(Point(base, 2, i), Point(base, 2, j), Point(base + 1, 2, i), Point(base + 1, 2, j), u, v);
  }

  lemma FringeIsBand(base: nat, i: nat, j: nat)
    ensures FringeSegment(base, i, j) == Band(Point(base, 2, i), Point(base, 2, j), Point(base + 1, 2, i),
            Point(base + 1, 2, j))
  {
    hide Idx;
  }

  lemma FringeEdgesGrow(base: nat, n: nat, k: nat, u: nat, v: nat)
    requires 1 <= k <= n
    ensures var (i, j) := (PreviousPoint(k - 1, n), k - 1);
            && Count(Ring(base, 2, n, k), u, v)
               == Count(Ring(base, 2, n, k - 1), u, v) + Is(Edge(Point(base, 2, i), Point(base, 2, j)), u, v)
            && Count(Ring(base + 1, 2, n, k), u, v)
               == Count(Ring(base + 1, 2, n, k - 1), u, v)
                 + Is(Edge(Point(base + 1, 2, i), Point(base + 1, 2, j)), u, v)
            && Count(Spokes(base, k), u, v) == Count(Spokes(base, k - 1), u, v) + Is(Spoke(base, j), u, v)
            && Count(FringeDiagonals(base, n, k), u, v)
               == Count(FringeDiagonals(base, n, k - 1), u, v)
                 + Is(Edge(Point(base + 1, 2, i), Point(base, 2, j)), u, v)
  {
    hide Is, Count, Point;
    var (i, j) := (PreviousPoint(k - 1, n), k - 1);
    CountSnoc(Ring(base, 2, n, k - 1), Edge(Point(base, 2, i), Point(base, 2, j)), u, v);
    CountSnoc(Ring(base + 1, 2, n, k - 1), Edge(Point(base + 1, 2, i), Point(base + 1, 2, j)), u, v);
    CountSnoc(Spokes(base, k - 1), Spoke(base, j), u, v);
    CountSnoc(FringeDiagonals(base, n, k - 1), Edge(Point(base + 1, 2, i), Point(base, 2, j)), u, v);
  }

  /** An anti-aliased fill: the outer polygon's sides once, everything else twice. */
  lemma FringedFillEdges(base: nat, n: nat, u: nat, v: nat)
    requires n >= 3 && base + n * 2 <= 0x10000
    ensures |FillIndices(base, n, true)| % 3 == 0
    ensures Uses(FillIndices(base, n, true), u, v)
            == Count(Ring(base + 1, 2, n, n), u, v)
               + 2 * (Count(Ring(base, 2, n, n), u, v) + Count(Diagonals(base, 2, n), u, v)
                      + Count(Spokes(base, n), u, v) + Count(FringeDiagonals(base, n, n), u, v))
  {
    hide Is, Count, Uses, Ring, FanIndices, FringeIndices, Diagonals, Spokes, FringeDiagonals;
    FanEdges(base, 2, n, u, v);
    OpenFringe(base, n, n, u, v);
    UsesConcat(FanIndices(base, 2, n), FringeIndices(base, n, n), u, v);
  }
}
