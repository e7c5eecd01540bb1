/** The vertices of strokes and fills, one by one, and what a colour says about them. */
module Vertices {
  import opened DrawState
  import opened Primitives
  import opened DrawListClass

  // ----- Colours

  type Channel = n: nat | n < 0x100

  /** Red in the lowest byte, alpha in the highest. */
  function Colour(r: Channel, g: Channel, b: Channel, a: Channel): nat {
    r + g * 0x100 + b * 0x10000 + a * 0x1000000
  }

  /** A colour is invisible exactly if its alpha is 0, and the transparent form of a colour differs in its alpha only.
      */
  lemma ColourParts(r: Channel, g: Channel, b: Channel, a: Channel)
    ensures Transparent(Colour(r, g, b, a)) == Colour(r, g, b, 0)
    ensures Invisible(Colour(r, g, b, a)) <==> a == 0
  {
    var rgb := r + g * 0x100 + b * 0x10000;
    assert Colour(r, g, b, a) == rgb + a * 0x1000000 && rgb < 0x1000000;
    AlphaOnTop(rgb, a);
  }

  lemma AlphaOnTop(rgb: nat, a: Channel)
    requires rgb < 0x1000000
    ensures (rgb + a * 0x1000000) / 0x1000000 == a && (rgb + a * 0x1000000) % 0x1000000 == rgb
  {}

  // ----- How many

  /** Without anti-aliasing a stroke has four vertices and six indices for each segment; with it, three vertices for
      each point and twelve indices for each segment up to a thickness of 1, four and eighteen beyond. */
  lemma StrokeSizes(antiAliased: bool, thickness: real, n: nat, closed: bool)
    requires n >= 2
    ensures var (kind, segments) := (StrokeKind(antiAliased, thickness), if closed then n else n - 1);
            && SegmentCount(n, closed) == segments
            && VertexCount(kind, n, closed)
               == (if !antiAliased then 4 * segments else if thickness <= 1.0 then 3 * n else 4 * n)
            && |StrokeIndices(kind, 0, n, segments)|
               == (if !antiAliased then 6 else if thickness <= 1.0 then 12 else 18) * segments
  {
    hide StrokeIndices;
  }

  // ----- Which

  /** An anti-aliased stroke: point i has its own position in full colour between two transparent vertices, if the
      stroke is thin; or two vertices in full colour between two transparent ones. */
  lemma {:induction false} StrokeVertexAt(kind: Stroke, points: seq<Vec2>, at: (int, int) -> Vec2, uv: Vec2, col: nat,
                                          k: nat, i: nat)
    requires !kind.Plain? && i < k <= |points|
    ensures var (v, trans) := (StrokeVertices(kind, points, at, uv, col, k), Transparent(col));
            if kind.Thin? then
              && |v| == k * 3 && v[i * 3] == Vertex(points[i], uv, col)
              && v[i * 3 + 1] == Vertex(at(i, 0), uv, trans) && v[i * 3 + 2] == Vertex(at(i, 1), uv, trans)
            else
              && |v| == k * 4 && v[i * 4] == Vertex(at(i, 0), uv, trans) && v[i * 4 + 1] == Vertex(at(i, 1), uv, col)
              && v[i * 4 + 2] == Vertex(at(i, 2), uv, col) && v[i * 4 + 3] == Vertex(at(i, 3), uv, trans)
    decreases k
  {
    hide Transparent;
    if i < k - 1 {
      StrokeVertexAt(kind, points, at, uv, col, k - 1, i);
    }
  }

  /** A stroke without anti-aliasing: the four corners of each segment, in full colour. */
  lemma {:induction false} SegmentVertexAt(points: seq<Vec2>, at: (int, int) -> Vec2, uv: Vec2, col: nat, k: nat,
                                           i: nat, j: nat)
    requires i < k && j < 4
    ensures var v := StrokeVertices(Plain, points, at, uv, col, k);
            |v| == k * 4 && v[i * 4 + j] == Vertex(at(i, j), uv, col)
    decreases k
  {
    if i < k - 1 {
      SegmentVertexAt(points, at, uv, col, k - 1, i, j);
    }
  }

  /** An anti-aliased fill: for point i an inner vertex in full colour and an outer one that is transparent. */
  lemma {:induction false} FringeVertexAt(at: (int, int) -> Vec2, uv: Vec2, col: nat, k: nat, i: nat)
    requires i < k
    ensures var v := FringeVertices(at, uv, col, k);
            && |v| == k * 2 && v[i * 2] == Vertex(at(i, 0), uv, col)
            && v[i * 2 + 1] == Vertex(at(i, 1), uv, Transparent(col))
    decreases k
  {
    hide Transparent;
    if i < k - 1 {
      FringeVertexAt(at, uv, col, k - 1, i);
    }
  }

  /** A fill without anti-aliasing has the points themselves for vertices; with it, the fringe of them. */
  lemma FillVertexAt(points: seq<Vec2>, at: (int, int) -> Vec2, uv: Vec2, col: nat, i: nat)
    requires i < |points|
    ensures var v := FillVertices(points, at, uv, col, false);
            |v| == |points| && v[i] == Vertex(points[i], uv, col)
    ensures var v := FillVertices(points, at, uv, col, true);
            && |v| == |points| * 2 && v[i * 2] == Vertex(at(i, 0), uv, col)
            && v[i * 2 + 1] == Vertex(at(i, 1), uv, Transparent(col))
  {
    hide Transparent;
    FringeVertexAt(at, uv, col, |points|, i);
  }
}
