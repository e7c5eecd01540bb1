/** Strokes and fills have no cracks: every edge inside one of them is shared by exactly two of its triangles, and the
    edges that belong to one triangle are exactly its outline. */
module Watertight {
  import opened DrawState
  import opened Primitives
  import opened Mesh

  /** The edge between u and v is in the list, in either direction. */
  predicate Joined(es: seq<Edge>, u: nat, v: nat) {
    Edge(u, v) in es || Edge(v, u) in es
  }

  lemma {:induction false} CountPositive(es: seq<Edge>, u: nat, v: nat)
    ensures Count(es, u, v) > 0 <==> Joined(es, u, v)
    decreases |es|
  {
    if es != [] {
      CountPositive(Front(es), u, v);
      assert es == Front(es) + [Last(es)];
    }
  }

  /** Only the o-th edge can be the one between u and v. */
  lemma {:induction false} CountUnique(es: seq<Edge>, u: nat, v: nat, o: int)
    requires forall i :: 0 <= i < |es| && i != o ==> Is(es[i], u, v) == 0
    ensures Count(es, u, v) == if 0 <= o < |es| then Is(es[o], u, v) else 0
    decreases |es|
  {
    if es != [] {
      CountUnique(Front(es), u, v, o);
    }
  }

  // ----- Strokes

  /** The point that owns a vertex. */
  function PointOf(kind: Stroke, base: nat, w: nat): int {
    (w - base) / kind.Vertices(1)
  }

  /** The segment an edge belongs to: that of its first point; the last segment leads back to point 0. */
  function Owner(kind: Stroke, base: nat, u: nat, v: nat): int {
    var p, q := PointOf(kind, base, u), PointOf(kind, base, v);
    if p == q then p
    else if p - q == 1 then q
    else if q - p == 1 then p
    else if p < q then q else p
  }

  lemma PointOfVertex(kind: Stroke, base: nat, i: nat, lane: nat)
    requires !kind.Plain? && lane < kind.Vertices(1)
    ensures PointOf(kind, base, base + kind.Vertices(i) + lane) == i
  {}

  /** An edge between lanes of points i and j. */
  predicate Between(kind: Stroke, base: nat, i: nat, j: nat, u: nat, v: nat) {
    || (PointOf(kind, base, u) == i && PointOf(kind, base, v) == j)
    || (PointOf(kind, base, u) == j && PointOf(kind, base, v) == i)
  }

  lemma SegmentBetween(kind: Stroke, base: nat, i: nat, j: nat, u: nat, v: nat)
    requires !kind.Plain?
    ensures var (a, b) := (base + kind.Vertices(i), base + kind.Vertices(j));
            && (Count(Rim(kind, a, b), u, v) > 0 ==> Between(kind, base, i, j, u, v))
            && (Count(Inner(kind, a, b), u, v) > 0 ==> Between(kind, base, i, j, u, v))
            && (Count(Cross(kind, a), u, v) > 0 ==> Between(kind, base, i, i, u, v))
  {
    hide Count, PointOf;
    var (a, b) := (base + kind.Vertices(i), base + kind.Vertices(j));
    CountPositive(Rim(kind, a, b), u, v);
    CountPositive(Inner(kind, a, b), u, v);
    CountPositive(Cross(kind, a), u, v);
    PointOfLanes(kind, base, i);
    PointOfLanes(kind, base, j);
  }

  lemma PointOfLanes(kind: Stroke, base: nat, i: nat)
    requires !kind.Plain?
    ensures var a := base + kind.Vertices(i);
            && PointOf(kind, base, a) == i && PointOf(kind, base, a + 1) == i && PointOf(kind, base, a + 2) == i
            && (kind.Thick? ==> PointOf(kind, base, a + 3) == i)
  {
    hide PointOf;
    PointOfVertex(kind, base, i, 0);
    PointOfVertex(kind, base, i, 1);
    PointOfVertex(kind, base, i, 2);
    if kind.Thick? {
      PointOfVertex(kind, base, i, 3);
    }
  }

  /** A segment's edges name it. */
  lemma OwnerOfSegment(kind: Stroke, base: nat, n: nat, i: nat, u: nat, v: nat)
    requires !kind.Plain? && i < n && (n >= 3 || i + 1 < n)
    ensures Between(kind, base, i, NextPoint(i, n), u, v) || Between(kind, base, i, i, u, v)
            ==> Owner(kind, base, u, v) == i
  {
    hide PointOf;
  }

  ghost function RimCount(kind: Stroke, base: nat, n: nat, i: nat, u: nat, v: nat): nat {
    Count(Rim(kind, base + kind.Vertices(i), base + kind.Vertices(NextPoint(i, n))), u, v)
  }

  ghost function InnerCount(kind: Stroke, base: nat, n: nat, i: nat, u: nat, v: nat): nat {
    Count(Inner(kind, base + kind.Vertices(i), base + kind.Vertices(NextPoint(i, n))), u, v)
  }

  ghost function CrossCount(kind: Stroke, base: nat, i: nat, u: nat, v: nat): nat {
    Count(Cross(kind, base + kind.Vertices(i)), u, v)
  }

  /** Of all segments only the owner's can hold the edge. */
  lemma SegmentCounts(kind: Stroke, base: nat, n: nat, i: nat, u: nat, v: nat)
    requires !kind.Plain? && i < n && (n >= 3 || i + 1 < n) && i != Owner(kind, base, u, v)
    ensures RimCount(kind, base, n, i, u, v) == 0 && InnerCount(kind, base, n, i, u, v) == 0
    ensures CrossCount(kind, base, i, u, v) == 0
  {
    hide Count, Owner, Between, Rim, Inner, Cross;
    SegmentBetween(kind, base, i, NextPoint(i, n), u, v);
    OwnerOfSegment(kind, base, n, i, u, v);
  }

  lemma CrossCounts(kind: Stroke, base: nat, i: nat, u: nat, v: nat)
    requires !kind.Plain? && i != Owner(kind, base, u, v)
    ensures CrossCount(kind, base, i, u, v) == 0
  {
    SegmentCounts(kind, base, i + 3, i, u, v);
  }

  lemma {:induction false} RimsCount(kind: Stroke, base: nat, n: nat, k: nat, u: nat, v: nat)
    requires !kind.Plain? && k <= n && (n >= 3 || k < n)
    ensures var o := Owner(kind, base, u, v);
            && Count(Rims(kind, base, n, k), u, v) == (if 0 <= o < k then RimCount(kind, base, n, o, u, v) else 0)
            && Count(Inners(kind, base, n, k), u, v) == (if 0 <= o < k then InnerCount(kind, base, n, o, u, v) else 0)
    decreases k
  {
    hide Count, Owner, Rim, Inner, Stroke.Vertices;
    if k == 0 {
      NoUses(u, v);
    } else {
      RimsCount(kind, base, n, k - 1, u, v);
      var (a, b) := (base + kind.Vertices(k - 1), base + kind.Vertices(NextPoint(k - 1, n)));
      CountConcat(Rims(kind, base, n, k - 1), Rim(kind, a, b), u, v);
      CountConcat(Inners(kind, base, n, k - 1), Inner(kind, a, b), u, v);
      if k - 1 != Owner(kind, base, u, v) {
        SegmentCounts(kind, base, n, k - 1, u, v);
      }
    }
  }

  lemma {:induction false} CrossesCount(kind: Stroke, base: nat, lo: nat, hi: nat, u: nat, v: nat)
    requires !kind.Plain? && lo <= hi
    ensures var o := Owner(kind, base, u, v);
            Count(Crosses(kind, base, lo, hi), u, v) == if lo <= o < hi then CrossCount(kind, base, o, u, v) else 0
    decreases hi
  {
    hide Count, Owner, Cross, Stroke.Vertices;
    if lo == hi {
      NoUses(u, v);
    } else {
      CrossesCount(kind, base, lo, hi - 1, u, v);
      CountConcat(Crosses(kind, base, lo, hi - 1), Cross(kind, base + kind.Vertices(hi - 1)), u, v);
      if hi - 1 != Owner(kind, base, u, v) {
        CrossCounts(kind, base, hi - 1, u, v);
      }
    }
  }

  /** The edges of one segment differ from each other. */
  lemma ThinDistinct(a: nat, b: nat, u: nat, v: nat)
    requires a + 3 <= b || b + 3 <= a
    ensures Count(Rim(Thin, a, b), u, v) + Count(Inner(Thin, a, b), u, v) + Count(Cross(Thin, a), u, v) <= 1
  {
    hide Count;
    CountTwo(Edge(a + 1, b + 1), Edge(a + 2, b + 2), u, v);
    CountThree(Edge(a, b), Edge(a + 2, b), Edge(a, b + 1), u, v);
    CountTwo(Edge(a, a + 1), Edge(a, a + 2), u, v);
  }

  lemma ThickDistinct(a: nat, b: nat, u: nat, v: nat)
    requires a + 4 <= b || b + 4 <= a
    ensures Count(Rim(Thick, a, b), u, v) + Count(Inner(Thick, a, b), u, v) + Count(Cross(Thick, a), u, v) <= 1
  {
    hide Count;
    CountTwo(Edge(a, b), Edge(a + 3, b + 3), u, v);
    ThickInner(a, b, u, v);
    CountThree(Edge(a, a + 1), Edge(a + 1, a + 2), Edge(a + 2, a + 3), u, v);
  }

  lemma SegmentDistinct(kind: Stroke, base: nat, n: nat, i: nat, u: nat, v: nat)
    requires !kind.Plain? && i < n && n >= 2
    ensures RimCount(kind, base, n, i, u, v) + InnerCount(kind, base, n, i, u, v) + CrossCount(kind, base, i, u, v) <= 1
  {
    hide Count, Rim, Inner, Cross;
    var (a, b) := (base + kind.Vertices(i), base + kind.Vertices(NextPoint(i, n)));
    if kind.Thin? {
      ThinDistinct(a, b, u, v);
    } else {
      ThickDistinct(a, b, u, v);
    }
  }

  /** A closed anti-aliased stroke of three points or more: an edge belongs to one triangle if and only if it is on one
      of the two rims, and to two if and only if it is inside; never to more. */
  lemma ClosedStrokeHasNoCracks(kind: Stroke, base: nat, n: nat, u: nat, v: nat)
    requires !kind.Plain? && n >= 3 && base + kind.Vertices(n) <= 0x10000
    ensures |StrokeIndices(kind, base, n, n)| % 3 == 0
    ensures var uses := Uses(StrokeIndices(kind, base, n, n), u, v);
            && uses <= 2
            && (uses == 1 <==> Joined(Rims(kind, base, n, n), u, v))
            && (uses == 2 <==> Joined(Inners(kind, base, n, n), u, v) || Joined(Crosses(kind, base, 0, n), u, v))
  {
    hide Uses, Count, Rims, Inners, Crosses, StrokeIndices, Owner, RimCount, InnerCount, CrossCount, Joined;
    ClosedStrokeEdges(kind, base, n, u, v);
    RimsCount(kind, base, n, n, u, v);
    CrossesCount(kind, base, 0, n, u, v);
    CountPositive(Rims(kind, base, n, n), u, v);
    CountPositive(Inners(kind, base, n, n), u, v);
    CountPositive(Crosses(kind, base, 0, n), u, v);
    var o := Owner(kind, base, u, v);
    if 0 <= o < n {
      SegmentDistinct(kind, base, n, o, u, v);
    }
  }

  /** A closed stroke of two points lies on itself: it has no rim, every edge belongs to an even number of triangles.
      */
  lemma ClosedPairHasNoRim(kind: Stroke, base: nat, u: nat, v: nat)
    requires !kind.Plain? && base + kind.Vertices(2) <= 0x10000
    ensures |StrokeIndices(kind, base, 2, 2)| % 3 == 0
    ensures Uses(StrokeIndices(kind, base, 2, 2), u, v) % 2 == 0
    ensures Joined(Rims(kind, base, 2, 2), u, v) ==> Uses(StrokeIndices(kind, base, 2, 2), u, v) >= 2
  {
    hide Uses, Count, Inners, Crosses, StrokeIndices, Joined;
    ClosedStrokeEdges(kind, base, 2, u, v);
    CountPositive(Rims(kind, base, 2, 2), u, v);
    PairRims(kind, base, u, v);
  }

  lemma PairRims(kind: Stroke, base: nat, u: nat, v: nat)
    requires !kind.Plain?
    ensures Count(Rims(kind, base, 2, 2), u, v) == 2 * Count(Rim(kind, base, base + kind.Vertices(1)), u, v)
  {
    hide Count, Is;
    var (a, b) := (base, base + kind.Vertices(1));
    var there, back := Rim(kind, a, b), Rim(kind, b, a);
    assert Rims(kind, base, 2, 0) == [] && [] + there == there;
    assert Rims(kind, base, 2, 1) == [] + there && kind.Vertices(0) == 0;
    assert Rims(kind, base, 2, 2) == there + back;
    CountConcat(there, back, u, v);
    if kind.Thin? {
      CountTwo(Edge(a + 1, b + 1), Edge(a + 2, b + 2), u, v);
      CountTwo(Edge(b + 1, a + 1), Edge(b + 2, a + 2), u, v);
      Undirected(a + 1, b + 1, u, v);
      Undirected(a + 2, b + 2, u, v);
    } else {
      CountTwo(Edge(a, b), Edge(a + 3, b + 3), u, v);
      CountTwo(Edge(b, a), Edge(b + 3, a + 3), u, v);
      Undirected(a, b, u, v);
      Undirected(a + 3, b + 3, u, v);
    }
  }

  /** An open stroke: its two ends belong to the outline, too. */
  lemma OpenStrokeHasNoCracks(kind: Stroke, base: nat, n: nat, u: nat, v: nat)
    requires !kind.Plain? && n >= 2 && base + kind.Vertices(n) <= 0x10000
    ensures |StrokeIndices(kind, base, n, n - 1)| % 3 == 0
    ensures var uses := Uses(StrokeIndices(kind, base, n, n - 1), u, v);
            && uses <= 2
            && (uses == 1 <==> || Joined(Rims(kind, base, n, n - 1), u, v)
                               || Joined(Cross(kind, base), u, v)
                               || Joined(Cross(kind, base + kind.Vertices(n - 1)), u, v))
            && (uses == 2 <==> || Joined(Inners(kind, base, n, n - 1), u, v)
                               || Joined(Crosses(kind, base, 1, n - 1), u, v))
  {
    hide Uses, Count, Rims, Inners, Crosses, Cross, StrokeIndices, Owner, RimCount, InnerCount, Joined;
    OpenStrokeEdges(kind, base, n, u, v);
    RimsCount(kind, base, n, n - 1, u, v);
    CrossesCount(kind, base, 1, n - 1, u, v);
    CountPositive(Rims(kind, base, n, n - 1), u, v);
    CountPositive(Inners(kind, base, n, n - 1), u, v);
    CountPositive(Crosses(kind, base, 1, n - 1), u, v);
    CountPositive(Cross(kind, base), u, v);
    CountPositive(Cross(kind, base + kind.Vertices(n - 1)), u, v);
    var o := Owner(kind, base, u, v);
    EndCounts(kind, base, n, u, v);
    if 0 <= o < n {
      SegmentDistinct(kind, base, n, o, u, v);
    }
  }

  lemma EndCounts(kind: Stroke, base: nat, n: nat, u: nat, v: nat)
    requires !kind.Plain? && n >= 2
    ensures var o := Owner(kind, base, u, v);
            && (o != 0 ==> Count(Cross(kind, base), u, v) == 0)
            && (o != n - 1 ==> Count(Cross(kind, base + kind.Vertices(n - 1)), u, v) == 0)
            && kind.Vertices(0) == 0
  {
    hide Count, Cross, Owner;
    var o := Owner(kind, base, u, v);
    if o != 0 {
      CrossCounts(kind, base, 0, u, v);
    }
    if o != n - 1 {
      CrossCounts(kind, base, n - 1, u, v);
    }
  }

  // ----- Fills

  /** The point of a polygon that a vertex stands for. */
  function IndexOf(base: nat, step: nat, w: nat): int
    requires step >= 1
  {
    (w - base) / step
  }

  lemma IndexOfPoint(base: nat, step: nat, i: nat)
    requires step >= 1
    ensures IndexOf(base, step, Point(base, step, i)) == i
  {
    QuotientOf(i, step, i * step);
  }

  lemma QuotientOf(i: nat, step: nat, product: nat)
    requires step >= 1 && product == i * step
    ensures product / step == i
  {
    var q, r := product / step, product % step;
    assert product == step * q + r && step * (i - q) == r;
    Multiples(i - q, step);
  }

  lemma Multiples(k: int, step: nat)
    ensures k >= 1 ==> step * k >= step
    ensures k <= -1 ==> step * k <= -(step as int)
  {}

  /** The later of two points. */
  function Later(base: nat, step: nat, u: nat, v: nat): int
    requires step >= 1
  {
    var p, q := IndexOf(base, step, u), IndexOf(base, step, v);
    if p < q then q else p
  }

  /** The point that a side leads to: its later end, but for the closing side. */
  function SideOf(base: nat, step: nat, u: nat, v: nat): int
    requires step >= 1
  {
    var p, q := IndexOf(base, step, u), IndexOf(base, step, v);
    if p - q == 1 || q - p == 1 then Later(base, step, u, v) else 0
  }

  function Side(base: nat, step: nat, n: nat, i: nat): Edge
    requires i < n
  {
    Edge(Point(base, step, PreviousPoint(i, n)), Point(base, step, i))
  }

  lemma {:induction false} RingAt(base: nat, step: nat, n: nat, k: nat, i: nat)
    requires i < k <= n
    ensures |Ring(base, step, n, k)| == k && Ring(base, step, n, k)[i] == Side(base, step, n, i)
    decreases k
  {
    RingLength(base, step, n, k - 1);
    if i < k - 1 {
      RingAt(base, step, n, k - 1, i);
    }
  }

  lemma RingLength(base: nat, step: nat, n: nat, k: nat)
    requires k <= n
    ensures |Ring(base, step, n, k)| == k
  {}

  /** A side has one place in the ring. */
  lemma RingCount(base: nat, step: nat, n: nat, u: nat, v: nat)
    requires n >= 3 && step >= 1
    ensures var o := SideOf(base, step, u, v);
            Count(Ring(base, step, n, n), u, v) == if 0 <= o < n then Is(Side(base, step, n, o), u, v) else 0
  {
    hide Is, Count, Side, SideOf;
    var o, ring := SideOf(base, step, u, v), Ring(base, step, n, n);
    RingLength(base, step, n, n);
    forall i | 0 <= i < |ring|
      ensures ring[i] == Side(base, step, n, i) && (i != o ==> Is(ring[i], u, v) == 0)
    {
      RingAt(base, step, n, n, i);
      SideNamesItself(base, step, n, i, u, v);
    }
    CountUnique(ring, u, v, o);
  }

  lemma SideNamesItself(base: nat, step: nat, n: nat, i: nat, u: nat, v: nat)
    requires i < n && n >= 3 && step >= 1
    ensures Is(Side(base, step, n, i), u, v) == 1 ==> SideOf(base, step, u, v) == i
    ensures Is(Side(base, step, n, i), u, v) <= 1
  {
    hide IndexOf, Point;
    IndexOfPoint(base, step, i);
    IndexOfPoint(base, step, PreviousPoint(i, n));
  }

  function Diagonal(base: nat, step: nat, i: nat): Edge {
    Edge(base, Point(base, step, i))
  }

  lemma {:induction false} DiagonalAt(base: nat, step: nat, n: nat, i: nat)
    requires n >= 3 && i < n - 3
    ensures |Diagonals(base, step, n)| == n - 3 && Diagonals(base, step, n)[i] == Diagonal(base, step, i + 2)
    decreases n
  {
    DiagonalsLength(base, step, n - 1);
    if i < n - 4 {
      DiagonalAt(base, step, n - 1, i);
    }
  }

  lemma DiagonalsLength(base: nat, step: nat, n: nat)
    requires n >= 3
    ensures |Diagonals(base, step, n)| == n - 3
  {}

  lemma DiagonalsCount(base: nat, step: nat, n: nat, u: nat, v: nat)
    requires n >= 3 && step >= 1
    ensures var o := Later(base, step, u, v);
            Count(Diagonals(base, step, n), u, v) == if 2 <= o < n - 1 then Is(Diagonal(base, step, o), u, v) else 0
  {
    hide Is, Count, Diagonal, Later;
    var o, ds := Later(base, step, u, v), Diagonals(base, step, n);
    DiagonalsLength(base, step, n);
    forall i | 0 <= i < |ds|
      ensures ds[i] == Diagonal(base, step, i + 2) && (i != o - 2 ==> Is(ds[i], u, v) == 0)
    {
      DiagonalAt(base, step, n, i);
      DiagonalNamesItself(base, step, i + 2, u, v);
    }
    CountUnique(ds, u, v, o - 2);
  }

  lemma DiagonalNamesItself(base: nat, step: nat, i: nat, u: nat, v: nat)
    requires i >= 2 && step >= 1
    ensures Is(Diagonal(base, step, i), u, v) == 1 ==> Later(base, step, u, v) == i && SideOf(base, step, u, v) == 0
    ensures Is(Diagonal(base, step, i), u, v) <= 1
  {
    hide IndexOf, Point;
    FirstPoint(base, step);
    IndexOfPoint(base, step, 0);
    IndexOfPoint(base, step, i);
  }

  /** No side of the polygon is one of its diagonals. */
  lemma SideOrDiagonal(base: nat, step: nat, n: nat, u: nat, v: nat)
    requires n >= 3 && step >= 1
    ensures Count(Ring(base, step, n, n), u, v) + Count(Diagonals(base, step, n), u, v) <= 1
  {
    hide Is, Count, Side, Diagonal, SideOf, Later;
    RingCount(base, step, n, u, v);
    DiagonalsCount(base, step, n, u, v);
    var o, d := SideOf(base, step, u, v), Later(base, step, u, v);
    if 0 <= o < n {
      SideNamesItself(base, step, n, o, u, v);
    }
    if 2 <= d < n - 1 {
      DiagonalNamesItself(base, step, d, u, v);
      ClosingIsNoDiagonal(base, step, n, d, u, v);
    }
  }

  /** The closing side is no diagonal. */
  lemma ClosingIsNoDiagonal(base: nat, step: nat, n: nat, d: nat, u: nat, v: nat)
    requires 2 <= d < n - 1 && step >= 1
    ensures Is(Diagonal(base, step, d), u, v) == 1 ==> Is(Side(base, step, n, 0), u, v) == 0
  {
    hide IndexOf, Point;
    IndexOfPoint(base, step, d);
    IndexOfPoint(base, step, n - 1);
    IndexOfPoint(base, step, 0);
    FirstPoint(base, step);
  }

  /** A plain fill: an edge belongs to one triangle if and only if it is a side of the polygon, and to two if and only
      if it is a diagonal from the first point. */
  lemma FanHasNoCracks(base: nat, step: nat, n: nat, u: nat, v: nat)
    requires n >= 3 && step >= 1 && base + n * step <= 0x10000
    ensures |FanIndices(base, step, n)| % 3 == 0
    ensures var uses := Uses(FanIndices(base, step, n), u, v);
            && uses <= 2
            && (uses == 1 <==> Joined(Ring(base, step, n, n), u, v))
            && (uses == 2 <==> Joined(Diagonals(base, step, n), u, v))
  {
    hide Uses, Count, Joined, Ring, Diagonals, FanIndices;
    FanEdges(base, step, n, u, v);
    SideOrDiagonal(base, step, n, u, v);
    CountPositive(Ring(base, step, n, n), u, v);
    CountPositive(Diagonals(base, step, n), u, v);
  }

  // ----- Fills with a fringe

  /** Inner vertices have even distance from the first one, outer vertices odd. */
  predicate IsOuter(base: nat, w: nat) {
    (w - base) % 2 == 1
  }

  lemma LaneOfPoint(base: nat, i: nat)
    ensures !IsOuter(base, Point(base, 2, i)) && IsOuter(base, Point(base + 1, 2, i))
    ensures IndexOf(base, 2, Point(base, 2, i)) == i && IndexOf(base, 2, Point(base + 1, 2, i)) == i
  {}

  /** What the edges of a list have in common. */
  ghost predicate AllInner(base: nat, es: seq<Edge>) {
    forall e <- es :: !IsOuter(base, e.p) && !IsOuter(base, e.q)
  }

  ghost predicate AllOuter(base: nat, es: seq<Edge>) {
    forall e <- es :: IsOuter(base, e.p) && IsOuter(base, e.q)
  }

  lemma {:induction false} RingLanes(base: nat, n: nat, k: nat)
    requires k <= n
    ensures AllInner(base, Ring(base, 2, n, k)) && AllOuter(base, Ring(base + 1, 2, n, k))
    decreases k
  {
    hide IsOuter, Point;
    if k > 0 {
      RingLanes(base, n, k - 1);
      LaneOfPoint(base, k - 1);
      LaneOfPoint(base, PreviousPoint(k - 1, n));
    }
  }

  lemma {:induction false} DiagonalLanes(base: nat, n: nat)
    ensures AllInner(base, Diagonals(base, 2, n))
    decreases n
  {
    hide IsOuter, Point;
    FirstPoint(base, 2);
    LaneOfPoint(base, 0);
    if n > 3 {
      DiagonalLanes(base, n - 1);
      LaneOfPoint(base, n - 2);
    }
  }

  /** The point of the inner end of an edge between the lanes. */
  function InnerEnd(base: nat, u: nat, v: nat): int {
    if IsOuter(base, u) then IndexOf(base, 2, v) else IndexOf(base, 2, u)
  }

  predicate Crosswise(base: nat, u: nat, v: nat) {
    IsOuter(base, u) != IsOuter(base, v)
  }

  lemma {:induction false} SpokeAt(base: nat, k: nat, i: nat)
    requires i < k
    ensures |Spokes(base, k)| == k && Spokes(base, k)[i] == Spoke(base, i)
    decreases k
  {
    SpokesLength(base, k - 1);
    if i < k - 1 {
      SpokeAt(base, k - 1, i);
    }
  }

  lemma SpokesLength(base: nat, k: nat)
    ensures |Spokes(base, k)| == k
  {}

  function FringeDiagonal(base: nat, n: nat, i: nat): Edge
    requires i < n
  {
    Edge(Point(base + 1, 2, PreviousPoint(i, n)), Point(base, 2, i))
  }

  lemma {:induction false} FringeDiagonalAt(base: nat, n: nat, k: nat, i: nat)
    requires i < k <= n
    ensures |FringeDiagonals(base, n, k)| == k && FringeDiagonals(base, n, k)[i] == FringeDiagonal(base, n, i)
    decreases k
  {
    FringeDiagonalsLength(base, n, k - 1);
    if i < k - 1 {
      FringeDiagonalAt(base, n, k - 1, i);
    }
  }

  lemma FringeDiagonalsLength(base: nat, n: nat, k: nat)
    requires k <= n
    ensures |FringeDiagonals(base, n, k)| == k
  {}

  lemma SpokeNamesItself(base: nat, i: nat, u: nat, v: nat)
    ensures Is(Spoke(base, i), u, v) <= 1
    ensures Is(Spoke(base, i), u, v) == 1 ==>
              InnerEnd(base, u, v) == i && Crosswise(base, u, v) && IndexOf(base, 2, u) == IndexOf(base, 2, v)
  {
    hide IndexOf, IsOuter, Point;
    LaneOfPoint(base, i);
  }

  lemma FringeDiagonalNamesItself(base: nat, n: nat, i: nat, u: nat, v: nat)
    requires i < n && n >= 2
    ensures Is(FringeDiagonal(base, n, i), u, v) <= 1
    ensures Is(FringeDiagonal(base, n, i), u, v) == 1 ==>
              InnerEnd(base, u, v) == i && Crosswise(base, u, v) && IndexOf(base, 2, u) != IndexOf(base, 2, v)
  {
    hide IndexOf, IsOuter, Point;
    LaneOfPoint(base, i);
    LaneOfPoint(base, PreviousPoint(i, n));
  }

  lemma CrosswiseCounts(base: nat, n: nat, u: nat, v: nat)
    requires n >= 2
    ensures Count(Spokes(base, n), u, v) + Count(FringeDiagonals(base, n, n), u, v) <= if Crosswise(base, u, v) then 1
            else 0
  {
    hide Is, Count, IndexOf, IsOuter, Spoke, FringeDiagonal, InnerEnd, Crosswise;
    var o, ss, ds := InnerEnd(base, u, v), Spokes(base, n), FringeDiagonals(base, n, n);
    SpokesLength(base, n);
    FringeDiagonalsLength(base, n, n);
    forall i | 0 <= i < n
      ensures ss[i] == Spoke(base, i) && (i != o ==> Is(ss[i], u, v) == 0)
      ensures ds[i] == FringeDiagonal(base, n, i) && (i != o ==> Is(ds[i], u, v) == 0)
    {
      SpokeAt(base, n, i);
      FringeDiagonalAt(base, n, n, i);
      SpokeNamesItself(base, i, u, v);
      FringeDiagonalNamesItself(base, n, i, u, v);
    }
    CountUnique(ss, u, v, o);
    CountUnique(ds, u, v, o);
    if 0 <= o < n {
      SpokeNamesItself(base, o, u, v);
      FringeDiagonalNamesItself(base, n, o, u, v);
    }
  }

  lemma LaneCounts(base: nat, n: nat, u: nat, v: nat)
    ensures Count(Ring(base + 1, 2, n, n), u, v) > 0 ==> IsOuter(base, u) && IsOuter(base, v)
    ensures Count(Ring(base, 2, n, n), u, v) > 0 || Count(Diagonals(base, 2, n), u, v) > 0
            ==> !IsOuter(base, u) && !IsOuter(base, v)
  {
    hide Count, IsOuter;
    CountPositive(Ring(base + 1, 2, n, n), u, v);
    CountPositive(Ring(base, 2, n, n), u, v);
    CountPositive(Diagonals(base, 2, n), u, v);
    RingLanes(base, n, n);
    DiagonalLanes(base, n);
  }

  /** An anti-aliased fill: an edge belongs to one triangle if and only if it is a side of the outer polygon, and to
      two if and only if it is a side of the inner one, where fan and fringe meet, or lies inside either. */
  lemma FringedFillHasNoCracks(base: nat, n: nat, u: nat, v: nat)
    requires n >= 3 && base + n * 2 <= 0x10000
    ensures |FillIndices(base, n, true)| % 3 == 0
    ensures var uses := Uses(FillIndices(base, n, true), u, v);
            && uses <= 2
            && (uses == 1 <==> Joined(Ring(base + 1, 2, n, n), u, v))
            && (uses == 2 <==> || Joined(Ring(base, 2, n, n), u, v) || Joined(Diagonals(base, 2, n), u, v)
                               || Joined(Spokes(base, n), u, v) || Joined(FringeDiagonals(base, n, n), u, v))
  {
    hide Uses, Count, Joined, Ring, Diagonals, Spokes, FringeDiagonals, FillIndices, IsOuter;
    FringedFillEdges(base, n, u, v);
    LaneCounts(base, n, u, v);
    CrosswiseCounts(base, n, u, v);
    SideOrDiagonal(base, 2, n, u, v);
    SideOrDiagonal(base + 1, 2, n, u, v);
    CountPositive(Ring(base + 1, 2, n, n), u, v);
    CountPositive(Ring(base, 2, n, n), u, v);
    CountPositive(Diagonals(base, 2, n), u, v);
    CountPositive(Spokes(base, n), u, v);
    CountPositive(FringeDiagonals(base, n, n), u, v);
  }
}
