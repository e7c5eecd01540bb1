/** Bezier tessellation over the reals: the recursive subdivision and the fixed-step loop put points on one
    and the same cubic. */
module Bezier {

  datatype Point = Point(x: real, y: real)

  /** The four control points. */
  datatype Curve = Curve(p1: Point, p2: Point, p3: Point, p4: Point)

  // ----- The cubic

  /** The Bernstein weights of the fixed-step branch, and the point they give. */
  function Weight(i: nat, t: real): real
    requires 1 <= i <= 4
  {
    var u := 1.0 - t;
    if i == 1 then u * u * u
    else if i == 2 then 3.0 * u * u * t
    else if i == 3 then 3.0 * u * t * t
    else t * t * t
  }

  function Blend(w1: real, w2: real, w3: real, w4: real, a: real, b: real, c: real, d: real): real {
    w1 * a + w2 * b + w3 * c + w4 * d
  }

  function Cubic(a: real, b: real, c: real, d: real, t: real): real {
    Blend(Weight(1, t), Weight(2, t), Weight(3, t), Weight(4, t), a, b, c, d)
  }

  function At(k: Curve, t: real): Point {
    Point(Cubic(k.p1.x, k.p2.x, k.p3.x, k.p4.x, t), Cubic(k.p1.y, k.p2.y, k.p3.y, k.p4.y, t))
  }

  // ----- Subdivision

  function Mid(a: Point, b: Point): Point {
    Point((a.x + b.x) * 0.5, (a.y + b.y) * 0.5)
  }

  function LeftHalf(k: Curve): Curve {
    var p12, p23 := Mid(k.p1, k.p2), Mid(k.p2, k.p3);
    var p34 := Mid(k.p3, k.p4);
    var p123, p234 := Mid(p12, p23), Mid(p23, p34);
    Curve(k.p1, p12, p123, Mid(p123, p234))
  }

  function RightHalf(k: Curve): Curve {
    var p12, p23 := Mid(k.p1, k.p2), Mid(k.p2, k.p3);
    var p34 := Mid(k.p3, k.p4);
    var p123, p234 := Mid(p12, p23), Mid(p23, p34);
    Curve(Mid(p123, p234), p234, p34, k.p4)
  }

  function Abs(r: real): real {
    if r >= 0.0 then r else -r
  }

  /** How far a control point is off the chord, times the chord's length. */
  function Off(x: real, y: real, x4: real, y4: real, dx: real, dy: real): real {
    (x - x4) * dy - (y - y4) * dx
  }

  predicate Negligible(d: real, tol: real, dx: real, dy: real) {
    d * d < tol * (dx * dx + dy * dy)
  }

  /** The control polygon is close enough to its chord. */
  predicate Flat(k: Curve, tol: real) {
    var dx, dy := k.p4.x - k.p1.x, k.p4.y - k.p1.y;
    var d2 := Abs(Off(k.p2.x, k.p2.y, k.p4.x, k.p4.y, dx, dy));
    var d3 := Abs(Off(k.p3.x, k.p3.y, k.p4.x, k.p4.y, dx, dy));
    Negligible(d2 + d3, tol, dx, dy)
  }

  const MAX_LEVEL := 10

  /** The points that a subdivision from `level` on appends. */
  function Casteljau(k: Curve, tol: real, level: nat): seq<Point>
    decreases MAX_LEVEL - level
  {
    if Flat(k, tol) then [k.p4]
    else if level < MAX_LEVEL then Casteljau(LeftHalf(k), tol, level + 1) + Casteljau(RightHalf(k), tol, level + 1)
    else []
  }

  /** The cubic by powers of t. */
  lemma Expand(a: real, b: real, c: real, d: real, t: real)
    ensures Cubic(a, b, c, d, t)
            == a + 3.0 * (b - a) * t + 3.0 * (a - 2.0 * b + c) * (t * t) + (d - 3.0 * c + 3.0 * b - a) * (t * t * t)
  {
    var u := 1.0 - t;
    var t2 := t * t;
    var t3 := t2 * t;
    assert u * u == 1.0 - 2.0 * t + t2;
    assert u * u * u == 1.0 - 3.0 * t + 3.0 * t2 - t3;
    assert 3.0 * u * u * t == 3.0 * t - 6.0 * t2 + 3.0 * t3;
    assert 3.0 * u * t * t == 3.0 * t2 - 3.0 * t3;
  }

  // ----- The halves are the halves of the curve

  lemma LeftScalar(a: real, b: real, c: real, d: real, t: real)
    ensures Cubic(a, (a + b) / 2.0, (a + 2.0 * b + c) / 4.0, (a + 3.0 * b + 3.0 * c + d) / 8.0, t)
            == Cubic(a, b, c, d, t / 2.0)
  {
    var t2 := t * t;
    var t3 := t2 * t;
    Expand(a, (a + b) / 2.0, (a + 2.0 * b + c) / 4.0, (a + 3.0 * b + 3.0 * c + d) / 8.0, t);
    Expand(a, b, c, d, t / 2.0);
    assert (t / 2.0) * (t / 2.0) == t2 / 4.0;
    assert (t / 2.0) * (t / 2.0) * (t / 2.0) == t3 / 8.0;
  }

  lemma Mirrored(a: real, b: real, c: real, d: real, t: real)
    ensures Cubic(a, b, c, d, t) == Cubic(d, c, b, a, 1.0 - t)
  {
    var u := 1.0 - t;
    assert 1.0 - u == t;
    assert 3.0 * u * u * t == 3.0 * t * u * u && 3.0 * u * t * t == 3.0 * t * t * u;
  }

  lemma RightScalar(a: real, b: real, c: real, d: real, t: real)
    ensures Cubic((a + 3.0 * b + 3.0 * c + d) / 8.0, (b + 2.0 * c + d) / 4.0, (c + d) / 2.0, d, t)
            == Cubic(a, b, c, d, (1.0 + t) / 2.0)
  {
    var (m, n, o) := ((d + 3.0 * c + 3.0 * b + a) / 8.0, (d + 2.0 * c + b) / 4.0, (d + c) / 2.0);
    Mirrored(m, n, o, d, t);
    LeftScalar(d, c, b, a, 1.0 - t);
    Mirrored(d, c, b, a, (1.0 - t) / 2.0);
    assert 1.0 - (1.0 - t) / 2.0 == (1.0 + t) / 2.0;
  }

  lemma HalvesControls(k: Curve)
    ensures var l := LeftHalf(k);
            && l.p1 == k.p1 && l.p2 == Mid(k.p1, k.p2)
            && l.p3.x == (k.p1.x + 2.0 * k.p2.x + k.p3.x) / 4.0 && l.p3.y == (k.p1.y + 2.0 * k.p2.y + k.p3.y) / 4.0
            && l.p4.x == (k.p1.x + 3.0 * k.p2.x + 3.0 * k.p3.x + k.p4.x) / 8.0
            && l.p4.y == (k.p1.y + 3.0 * k.p2.y + 3.0 * k.p3.y + k.p4.y) / 8.0
    ensures var r := RightHalf(k);
            && r.p4 == k.p4 && r.p3 == Mid(k.p3, k.p4) && r.p1 == LeftHalf(k).p4
            && r.p2.x == (k.p2.x + 2.0 * k.p3.x + k.p4.x) / 4.0 && r.p2.y == (k.p2.y + 2.0 * k.p3.y + k.p4.y) / 4.0
  {}

  lemma HalvesOnCurve(k: Curve, t: real)
    ensures At(LeftHalf(k), t) == At(k, t / 2.0)
    ensures At(RightHalf(k), t) == At(k, (1.0 + t) / 2.0)
  {
    hide Cubic, LeftHalf, RightHalf;
    HalvesControls(k);
    LeftScalar(k.p1.x, k.p2.x, k.p3.x, k.p4.x, t);
    LeftScalar(k.p1.y, k.p2.y, k.p3.y, k.p4.y, t);
    RightScalar(k.p1.x, k.p2.x, k.p3.x, k.p4.x, t);
    RightScalar(k.p1.y, k.p2.y, k.p3.y, k.p4.y, t);
  }

  lemma EndsOnCurve(k: Curve)
    ensures At(k, 0.0) == k.p1 && At(k, 1.0) == k.p4
  {}

  // ----- Where the points lie

  /** The parameters of the appended points, in 1024ths: the piece at `level` covers (from, from + width]. */
  function Params(k: Curve, tol: real, level: nat, from: nat, width: nat): seq<nat>
    decreases MAX_LEVEL - level
  {
    if Flat(k, tol) then [from + width]
    else if level < MAX_LEVEL then
      Params(LeftHalf(k), tol, level + 1, from, width / 2)
      + Params(RightHalf(k), tol, level + 1, from + width / 2, width / 2)
    else []
  }

  function Pow2(n: nat): (p: nat)
    ensures p >= 1
  {
    if n == 0 then 1 else 2 * Pow2(n - 1)
  }

  /** The parameter reached at t on a stretch of length w from lo on. */
  function Along(lo: real, w: real, t: real): real {
    lo + t * w
  }

  /** The piece is the part of the whole on the stretch of length w from lo on. */
  ghost predicate IsPiece(piece: Curve, whole: Curve, lo: real, w: real) {
    forall t: real :: At(piece, t) == At(whole, Along(lo, w, t))
  }

  lemma AlongHalves(lo: real, w: real, t: real)
    ensures Along(lo, w, t / 2.0) == Along(lo, w / 2.0, t)
    ensures Along(lo, w, (1.0 + t) / 2.0) == Along(lo + w / 2.0, w / 2.0, t)
  {}

  lemma HalvesArePieces(piece: Curve, whole: Curve, lo: real, w: real)
    requires IsPiece(piece, whole, lo, w)
    ensures IsPiece(LeftHalf(piece), whole, lo, w / 2.0)
    ensures IsPiece(RightHalf(piece), whole, lo + w / 2.0, w / 2.0)
  {
    hide At, LeftHalf, RightHalf, Along;
    forall t: real
      ensures At(LeftHalf(piece), t) == At(whole, Along(lo, w / 2.0, t))
    {
      HalvesOnCurve(piece, t);
      AlongHalves(lo, w, t);
    }
    forall t: real
      ensures At(RightHalf(piece), t) == At(whole, Along(lo + w / 2.0, w / 2.0, t))
    {
      HalvesOnCurve(piece, t);
      AlongHalves(lo, w, t);
    }
  }

  ghost predicate Increasing(s: seq<nat>, from: nat, to: nat) {
    && (forall i :: 0 <= i < |s| ==> from < s[i] <= to)
    && (forall i, j :: 0 <= i < j < |s| ==> s[i] < s[j])
  }

  /** The parameter p / 1024. */
  function Param(p: nat): real {
    p as real / 1024.0
  }

  /** The points are the curve's at the parameters. */
  ghost predicate OnCurve(points: seq<Point>, params: seq<nat>, whole: Curve) {
    |points| == |params| && forall i :: 0 <= i < |points| ==> points[i] == At(whole, Param(params[i]))
  }

  lemma JoinOnCurve(p: seq<Point>, q: seq<Point>, a: seq<nat>, b: seq<nat>, whole: Curve)
    requires OnCurve(p, a, whole) && OnCurve(q, b, whole)
    ensures OnCurve(p + q, a + b, whole)
  {
    hide At, Param;
  }

  lemma JoinIncreasing(a: seq<nat>, b: seq<nat>, from: nat, mid: nat, to: nat)
    requires from <= mid <= to && Increasing(a, from, mid) && Increasing(b, mid, to)
    ensures Increasing(a + b, from, to)
  {}

  /** Every appended point lies on the curve, at parameters that are multiples of 1/1024 and strictly
      increase; a call at a level appends at most 2^(10 - level) points. */
  lemma {:induction false} CasteljauOnCurve(whole: Curve, piece: Curve, tol: real, level: nat, from: nat, width: nat)
    requires level <= MAX_LEVEL && width == Pow2(MAX_LEVEL - level) && IsPiece(piece, whole, Param(from), Param(width))
    ensures var points, params := Casteljau(piece, tol, level), Params(piece, tol, level, from, width);
            OnCurve(points, params, whole) && Increasing(params, from, from + width) && |points| <= width
    decreases MAX_LEVEL - level
  {
    hide At, Flat, LeftHalf, RightHalf, IsPiece, OnCurve, Increasing, Casteljau, Params, Param;
    ParamsIncreasing(piece, tol, level, from, width);
    if Flat(piece, tol) {
      NoSplit(piece, tol, level, from, width);
      LastPointOnCurve(whole, piece, from, width);
    } else if level >= MAX_LEVEL {
      NoSplit(piece, tol, level, from, width);
      NoPointsOnCurve(whole);
    } else {
      var half := Pow2(MAX_LEVEL - (level + 1));
      var l, r := LeftHalf(piece), RightHalf(piece);
      WidthHalves(level, from, width);
      HalvesArePieces(piece, whole, Param(from), Param(width));
      CasteljauOnCurve(whole, l, tol, level + 1, from, half);
      CasteljauOnCurve(whole, r, tol, level + 1, from + half, half);
      SplitStep(piece, tol, level, from, width);
      JoinOnCurve(Casteljau(l, tol, level + 1), Casteljau(r, tol, level + 1),
                  Params(l, tol, level + 1, from, half), Params(r, tol, level + 1, from + half, half), whole);
    }
  }

  lemma NoPointsOnCurve(whole: Curve)
    ensures OnCurve([], [], whole)
  {}

  lemma WidthHalves(level: nat, from: nat, width: nat)
    requires level < MAX_LEVEL && width == Pow2(MAX_LEVEL - level)
    ensures var half := Pow2(MAX_LEVEL - (level + 1));
            width == half + half && width / 2 == half && Param(half) == Param(width) / 2.0
            && Param(from + half) == Param(from) + Param(width) / 2.0
  {}

  lemma SplitStep(piece: Curve, tol: real, level: nat, from: nat, width: nat)
    requires level < MAX_LEVEL && !Flat(piece, tol)
    ensures Casteljau(piece, tol, level)
            == Casteljau(LeftHalf(piece), tol, level + 1) + Casteljau(RightHalf(piece), tol, level + 1)
    ensures Params(piece, tol, level, from, width)
            == Params(LeftHalf(piece), tol, level + 1, from, width / 2)
               + Params(RightHalf(piece), tol, level + 1, from + width / 2, width / 2)
  {
    hide Flat, LeftHalf, RightHalf;
  }

  lemma NoSplit(piece: Curve, tol: real, level: nat, from: nat, width: nat)
    requires level >= MAX_LEVEL || Flat(piece, tol)
    ensures Casteljau(piece, tol, level) == if Flat(piece, tol) then [piece.p4] else []
    ensures Params(piece, tol, level, from, width) == if Flat(piece, tol) then [from + width] else []
  {
    hide Flat;
  }

  lemma FewIncreasing(from: nat, width: nat)
    requires width > 0
    ensures Increasing([], from, from + width) && Increasing([from + width], from, from + width)
  {}

  lemma {:induction false} ParamsIncreasing(k: Curve, tol: real, level: nat, from: nat, width: nat)
    requires level <= MAX_LEVEL && width == Pow2(MAX_LEVEL - level)
    ensures Increasing(Params(k, tol, level, from, width), from, from + width)
    decreases MAX_LEVEL - level
  {
    hide Flat, LeftHalf, RightHalf, Param, Params, Increasing, Pow2;
    if Flat(k, tol) || level >= MAX_LEVEL {
      NoSplit(k, tol, level, from, width);
      FewIncreasing(from, width);
    } else {
      var half := Pow2(MAX_LEVEL - (level + 1));
      WidthHalves(level, from, width);
      SplitStep(k, tol, level, from, width);
      ParamsIncreasing(LeftHalf(k), tol, level + 1, from, half);
      ParamsIncreasing(RightHalf(k), tol, level + 1, from + half, half);
      JoinIncreasing(Params(LeftHalf(k), tol, level + 1, from, half),
                     Params(RightHalf(k), tol, level + 1, from + half, half), from, from + half, from + width);
    }
  }

  lemma LastPointOnCurve(whole: Curve, piece: Curve, from: nat, width: nat)
    requires IsPiece(piece, whole, Param(from), Param(width)) && width >= 1
    ensures OnCurve([piece.p4], [from + width], whole) && Increasing([from + width], from, from + width)
  {
    EndsOnCurve(piece);
    hide At;
    assert At(piece, 1.0) == At(whole, Along(Param(from), Param(width), 1.0));
    assert Along(Param(from), Param(width), 1.0) == Param(from + width);
  }

  lemma WholeIsPiece(k: Curve)
    ensures IsPiece(k, k, Param(0), Param(1024)) && Pow2(10) == 1024
  {
    hide At;
    forall t: real
      ensures At(k, t) == At(k, Along(Param(0), Param(1024), t))
    {
      assert Along(0.0, 1.0, t) == t;
    }
    Pow2Ten();
  }

  lemma Pow2Ten()
    ensures Pow2(10) == 1024
  {
    assert Pow2(4) == 16;
    assert Pow2(7) == 128;
  }

  /** The auto-tessellated curve. */
  lemma AutoTessellationOnCurve(k: Curve, tol: real)
    ensures var points, params := Casteljau(k, tol, 0), Params(k, tol, 0, 0, 1024);
            OnCurve(points, params, k) && Increasing(params, 0, 1024) && |points| <= 1024
  {
    hide At, OnCurve, Increasing, IsPiece;
    WholeIsPiece(k);
    CasteljauOnCurve(k, k, tol, 0, 0, 1024);
  }

  // ----- Whether the curve is finished

  /** The last piece after halving j times. */
  function LastPiece(k: Curve, j: nat): Curve
    decreases j
  {
    if j == 0 then k else LastPiece(RightHalf(k), j - 1)
  }

  /** One of the last pieces, halving at most n times, is flat. */
  ghost predicate SomeLastPieceFlat(k: Curve, tol: real, n: nat) {
    exists j :: 0 <= j <= n && Flat(LastPiece(k, j), tol)
  }

  lemma LastPieceFlatStep(k: Curve, tol: real, n: nat)
    ensures SomeLastPieceFlat(k, tol, n) <==> Flat(k, tol) || (n > 0 && SomeLastPieceFlat(RightHalf(k), tol, n - 1))
  {
    hide Flat, RightHalf;
    assert LastPiece(k, 0) == k;
    if j :| 0 <= j <= n && Flat(LastPiece(k, j), tol) {
      assert j > 0 ==> LastPiece(k, j) == LastPiece(RightHalf(k), j - 1);
    }
    if n > 0 && SomeLastPieceFlat(RightHalf(k), tol, n - 1) {
      var i :| 0 <= i <= n - 1 && Flat(LastPiece(RightHalf(k), i), tol);
      assert LastPiece(k, i + 1) == LastPiece(RightHalf(k), i);
    }
  }

  /** A subdivision stops without a point where a piece of the deepest level is not flat.  So the end of the
      curve is reached exactly when one of the last pieces, down to that level, is flat. */
  lemma {:induction false} EndReachedIff(k: Curve, tol: real, level: nat, from: nat, width: nat)
    requires level <= MAX_LEVEL && width == Pow2(MAX_LEVEL - level)
    ensures from + width in Params(k, tol, level, from, width) <==> SomeLastPieceFlat(k, tol, MAX_LEVEL - level)
    decreases MAX_LEVEL - level
  {
    hide Flat, LeftHalf, RightHalf, SomeLastPieceFlat, Param, Params;
    LastPieceFlatStep(k, tol, MAX_LEVEL - level);
    if Flat(k, tol) || level >= MAX_LEVEL {
      NoSplit(k, tol, level, from, width);
    } else {
      var half := Pow2(MAX_LEVEL - (level + 1));
      WidthHalves(level, from, width);
      SplitStep(k, tol, level, from, width);
      EndReachedIff(RightHalf(k), tol, level + 1, from + half, half);
      ParamsIncreasing(LeftHalf(k), tol, level + 1, from, half);
    }
  }

  /** A curve whose control points coincide appends nothing at all, not even its end. */
  lemma {:induction false} PointCurveAppendsNothing(p: Point, tol: real, level: nat)
    requires level <= MAX_LEVEL
    ensures Casteljau(Curve(p, p, p, p), tol, level) == []
    decreases MAX_LEVEL - level
  {
    var k := Curve(p, p, p, p);
    assert !Flat(k, tol);
    if level < MAX_LEVEL {
      assert LeftHalf(k) == k && RightHalf(k) == k;
      PointCurveAppendsNothing(p, tol, level + 1);
    }
  }

  // ----- How close the points come to the curve

  /** How far p is off the line through a and b, times the distance of these two. */
  function OffLine(a: Point, b: Point, p: Point): real {
    (p.x - b.x) * (b.y - a.y) - (p.y - b.y) * (b.x - a.x)
  }

  function LengthSquared(a: Point, b: Point): real {
    (b.x - a.x) * (b.x - a.x) + (b.y - a.y) * (b.y - a.y)
  }

  function Magnitude(r: real): real {
    if r < 0.0 then -r else r
  }

  /** On the deepest level a piece is either replaced by its end point or dropped; on any level it is replaced at once
      if and only if its two inner control points together are off the chord by less than the tolerance. */
  lemma EndPointAtOnceIff(k: Curve, tol: real, level: nat)
    ensures var off := Magnitude(OffLine(k.p1, k.p4, k.p2)) + Magnitude(OffLine(k.p1, k.p4, k.p3));
            && (off * off < tol * LengthSquared(k.p1, k.p4) ==> Casteljau(k, tol, level) == [k.p4])
            && (off * off >= tol * LengthSquared(k.p1, k.p4) ==>
                  Casteljau(k, tol, level) ==
                  if level < 10 then Casteljau(LeftHalf(k), tol, level + 1) + Casteljau(RightHalf(k), tol, level + 1)
                  else [])
  {
    hide LeftHalf, RightHalf;
    FlatIff(k, tol);
  }

  lemma FlatIff(k: Curve, tol: real)
    ensures var off := Magnitude(OffLine(k.p1, k.p4, k.p2)) + Magnitude(OffLine(k.p1, k.p4, k.p3));
            Flat(k, tol) <==> off * off < tol * LengthSquared(k.p1, k.p4)
  {
    hide Off, OffLine;
    OffIs(k, k.p2);
    OffIs(k, k.p3);
  }

  lemma OffIs(k: Curve, p: Point)
    ensures Off(p.x, p.y, k.p4.x, k.p4.y, k.p4.x - k.p1.x, k.p4.y - k.p1.y) == OffLine(k.p1, k.p4, p)
  {}

  /** A point of the curve is as far off the chord as its inner control points pull it. */
  lemma OffChordAt(k: Curve, t: real)
    ensures OffLine(k.p1, k.p4, At(k, t))
            == Weight(2, t) * OffLine(k.p1, k.p4, k.p2) + Weight(3, t) * OffLine(k.p1, k.p4, k.p3)
  {
    hide Weight, Blend;
    var (w1, w2, w3, w4) := (Weight(1, t), Weight(2, t), Weight(3, t), Weight(4, t));
    WeightsSum(t);
    BlendOff(w1, w2, w3, w4, k.p1.x, k.p2.x, k.p3.x, k.p4.x);
    BlendOff(w1, w2, w3, w4, k.p1.y, k.p2.y, k.p3.y, k.p4.y);
    CrossLinear(w1, w2, w3, k.p2.x - k.p4.x, k.p3.x - k.p4.x, k.p2.y - k.p4.y, k.p3.y - k.p4.y,
                k.p4.x - k.p1.x, k.p4.y - k.p1.y, At(k, t).x - k.p4.x, At(k, t).y - k.p4.y);
  }

  lemma WeightsSum(t: real)
    ensures Weight(1, t) + Weight(2, t) + Weight(3, t) + Weight(4, t) == 1.0
  {
    Expand(1.0, 1.0, 1.0, 1.0, t);
  }

  lemma BlendOff(w1: real, w2: real, w3: real, w4: real, a: real, b: real, c: real, d: real)
    requires w1 + w2 + w3 + w4 == 1.0
    ensures Blend(w1, w2, w3, w4, a, b, c, d) - d == w1 * (a - d) + w2 * (b - d) + w3 * (c - d)
  {
    assert w4 == 1.0 - w1 - w2 - w3;
    assert w4 * d == d - w1 * d - w2 * d - w3 * d;
  }

  lemma CrossLinear(w1: real, w2: real, w3: real, x2: real, x3: real, y2: real, y3: real, dx: real, dy: real, x: real,
                    y: real)
    requires x == w1 * (0.0 - dx) + w2 * x2 + w3 * x3 && y == w1 * (0.0 - dy) + w2 * y2 + w3 * y3
    ensures x * dy - y * dx == w2 * (x2 * dy - y2 * dx) + w3 * (x3 * dy - y3 * dx)
  {
    assert x * dy == 0.0 - w1 * dx * dy + w2 * x2 * dy + w3 * x3 * dy;
    assert y * dx == 0.0 - w1 * dy * dx + w2 * y2 * dx + w3 * y3 * dx;
  }

  /** The weights of the inner control points are largest at 1/3 and at 2/3. */
  lemma InnerWeights(t: real)
    requires 0.0 <= t <= 1.0
    ensures 0.0 <= 9.0 * Weight(2, t) <= 4.0 && 0.0 <= 9.0 * Weight(3, t) <= 4.0
  {
    WeightAtMost(t);
    WeightAtMost(1.0 - t);
    var u := 1.0 - t;
    NotNegative(u * u, t);
    NotNegative(t * t, u);
    assert 3.0 * u * t * t == 3.0 * (t * t * u);
    assert 3.0 * u * u * t == 3.0 * (u * u * t);
  }

  lemma NotNegative(a: real, b: real)
    requires a >= 0.0 && b >= 0.0
    ensures a * b >= 0.0
  {}

  lemma WeightAtMost(t: real)
    requires 0.0 <= t <= 1.0
    ensures 27.0 * ((1.0 - t) * (1.0 - t) * t) <= 4.0
  {
    var q := 3.0 * t - 1.0;
    assert q * q >= 0.0;
    assert q * q * (4.0 - 3.0 * t) >= 0.0;
    var t2 := t * t;
    var t3 := t2 * t;
    assert q * q == 9.0 * t2 - 6.0 * t + 1.0;
    assert q * q * (4.0 - 3.0 * t) == 4.0 - 27.0 * t + 54.0 * t2 - 27.0 * t3;
    assert (1.0 - t) * (1.0 - t) * t == t - 2.0 * t2 + t3;
  }

  lemma PulledTogether(w2: real, w3: real, a: real, b: real, off: real)
    requires 0.0 <= 9.0 * w2 <= 4.0 && 0.0 <= 9.0 * w3 <= 4.0 && off == w2 * a + w3 * b
    ensures 9.0 * Magnitude(off) <= 4.0 * (Magnitude(a) + Magnitude(b))
  {
    Pulled(w2, a);
    Pulled(w3, b);
  }

  lemma Pulled(w: real, a: real)
    requires 0.0 <= 9.0 * w <= 4.0
    ensures -4.0 * Magnitude(a) <= 9.0 * (w * a) <= 4.0 * Magnitude(a)
  {
    var m := Magnitude(a);
    assert 0.0 <= w * m;
    assert (4.0 - 9.0 * w) * m >= 0.0;
  }

  lemma SquaresGrow(a: real, b: real)
    requires 0.0 <= a <= b
    ensures a * a <= b * b
  {}

  /** The tessellation error: where a piece is replaced by its end point at once, no point of the curve on the way
      there is off the chord by more than 4/9 of what the tolerance allows. */
  lemma ReplacedPieceIsClose(k: Curve, tol: real, t: real)
    requires 0.0 <= t <= 1.0 && Casteljau(k, tol, 10) == [k.p4]
    ensures var off := OffLine(k.p1, k.p4, At(k, t)); 81.0 * (off * off) < 16.0 * (tol * LengthSquared(k.p1, k.p4))
  {
    hide Flat, LeftHalf, RightHalf, At, LengthSquared, OffLine, Weight, Magnitude;
    EndPointAtOnceIff(k, tol, 10);
    OffChordAt(k, t);
    InnerWeights(t);
    var (a, b, off) := (OffLine(k.p1, k.p4, k.p2), OffLine(k.p1, k.p4, k.p3), OffLine(k.p1, k.p4, At(k, t)));
    PulledTogether(Weight(2, t), Weight(3, t), a, b, off);
    SquaredBound(off, Magnitude(a) + Magnitude(b), tol * LengthSquared(k.p1, k.p4));
  }

  lemma SquaredBound(off: real, sum: real, bound: real)
    requires 9.0 * Magnitude(off) <= 4.0 * sum && sum * sum < bound
    ensures 81.0 * (off * off) < 16.0 * bound
  {
    SquaresGrow(9.0 * Magnitude(off), 4.0 * sum);
    assert (9.0 * Magnitude(off)) * (9.0 * Magnitude(off)) == 81.0 * (off * off);
    assert (4.0 * sum) * (4.0 * sum) == 16.0 * (sum * sum);
  }

  /** And a piece is replaced at once, on every level, if twice the farther of its inner control points is close
      enough. */
  lemma ClosePieceIsReplaced(k: Curve, tol: real, level: nat)
    requires var (a, b) := (Magnitude(OffLine(k.p1, k.p4, k.p2)), Magnitude(OffLine(k.p1, k.p4, k.p3)));
             4.0 * (a * a) < tol * LengthSquared(k.p1, k.p4) && 4.0 * (b * b) < tol * LengthSquared(k.p1, k.p4)
    ensures Casteljau(k, tol, level) == [k.p4]
  {
    hide Flat, LeftHalf, RightHalf, OffLine, LengthSquared;
    EndPointAtOnceIff(k, tol, level);
    var (a, b) := (Magnitude(OffLine(k.p1, k.p4, k.p2)), Magnitude(OffLine(k.p1, k.p4, k.p3)));
    var c := if a < b then b else a;
    SquaresGrow(a + b, 2.0 * c);
    assert (2.0 * c) * (2.0 * c) == 4.0 * (c * c);
  }

  /** The lengths, in 1024ths, of the stretches that the appended points end. */
  function Stretches(k: Curve, tol: real, level: nat, width: nat): seq<nat>
    decreases MAX_LEVEL - level
  {
    if Flat(k, tol) then [width]
    else if level < MAX_LEVEL then
      Stretches(LeftHalf(k), tol, level + 1, width / 2) + Stretches(RightHalf(k), tol, level + 1, width / 2)
    else []
  }

  /** Between the parameters lo and lo + w no point of the curve is off the straight line between the two ends by more
      than 4/9 of what the tolerance allows. */
  ghost predicate CloseOn(k: Curve, tol: real, lo: nat, w: nat) {
    var (a, b) := (At(k, Param(lo)), At(k, Param(lo + w)));
    forall t: real :: 0.0 <= t <= 1.0 ==>
      var off := OffLine(a, b, At(k, Along(Param(lo), Param(w), t)));
      81.0 * (off * off) < 16.0 * (tol * LengthSquared(a, b))
  }

  /** The stretches end at the parameters, do not overlap, and the curve is close to its chord on each of them. */
  ghost predicate AllClose(k: Curve, tol: real, params: seq<nat>, stretches: seq<nat>, low: nat) {
    |params| == |stretches| && forall i :: 0 <= i < |params| ==> EndsStretch(k, tol, params, stretches, low, i)
  }

  ghost predicate EndsStretch(k: Curve, tol: real, params: seq<nat>, stretches: seq<nat>, low: nat, i: nat)
    requires i < |params| == |stretches|
  {
    && (if i == 0 then low else params[i - 1]) + stretches[i] <= params[i]
    && CloseOn(k, tol, params[i] - stretches[i], stretches[i])
  }

  lemma PieceIsClose(whole: Curve, piece: Curve, tol: real, lo: nat, w: nat)
    requires IsPiece(piece, whole, Param(lo), Param(w)) && Flat(piece, tol)
    ensures CloseOn(whole, tol, lo, w)
  {
    hide At, Flat, OffLine, LengthSquared, LeftHalf, RightHalf, Param, Along;
    EndsOnCurve(piece);
    AlongEnds(lo, w);
    assert At(piece, 0.0) == At(whole, Along(Param(lo), Param(w), 0.0));
    assert At(piece, 1.0) == At(whole, Along(Param(lo), Param(w), 1.0));
    forall t: real | 0.0 <= t <= 1.0
      ensures var off := OffLine(piece.p1, piece.p4, At(piece, t));
              81.0 * (off * off) < 16.0 * (tol * LengthSquared(piece.p1, piece.p4))
    {
      ReplacedPieceIsClose(piece, tol, t);
    }
  }

  lemma AlongEnds(lo: nat, w: nat)
    ensures Along(Param(lo), Param(w), 0.0) == Param(lo) && Along(Param(lo), Param(w), 1.0) == Param(lo + w)
  {}

  lemma JoinClose(k: Curve, tol: real, p: seq<nat>, a: seq<nat>, q: seq<nat>, b: seq<nat>, low: nat, mid: nat)
    requires AllClose(k, tol, p, a, low) && AllClose(k, tol, q, b, mid) && low <= mid && forall x <- p :: x <= mid
    ensures AllClose(k, tol, p + q, a + b, low)
  {
    hide CloseOn;
    var (params, stretches) := (p + q, a + b);
    forall i | 0 <= i < |params|
      ensures EndsStretch(k, tol, params, stretches, low, i)
    {
      if i >= |p| {
        assert params[i] == q[i - |p|] && stretches[i] == b[i - |p|];
        assert i == |p| > 0 ==> params[i - 1] in p;
        assert EndsStretch(k, tol, q, b, mid, i - |p|);
      } else {
        assert EndsStretch(k, tol, p, a, low, i);
      }
    }
  }

  /** The tessellated curve is close to the curve: with each point that is appended goes a stretch of the curve that
      ends there, and is close to the straight line to it.  Where the stretch begins at the point before, that line is
      a side of the path; where it does not, a piece was dropped. */
  lemma {:induction false} TessellationIsClose(whole: Curve, piece: Curve, tol: real, level: nat, from: nat, width: nat)
    requires level <= MAX_LEVEL && width == Pow2(MAX_LEVEL - level) && IsPiece(piece, whole, Param(from), Param(width))
    ensures AllClose(whole, tol, Params(piece, tol, level, from, width), Stretches(piece, tol, level, width), from)
    decreases MAX_LEVEL - level
  {
    hide At, Flat, LeftHalf, RightHalf, IsPiece, AllClose, Param, CloseOn, Params, Stretches;
    StretchStep(piece, tol, level, width);
    if Flat(piece, tol) || level >= MAX_LEVEL {
      NoSplit(piece, tol, level, from, width);
    }
    if Flat(piece, tol) {
      PieceIsClose(whole, piece, tol, from, width);
      OneClose(whole, tol, from, width);
    } else if level >= MAX_LEVEL {
      NoneClose(whole, tol, from);
    } else {
      var half := Pow2(MAX_LEVEL - (level + 1));
      var l, r := LeftHalf(piece), RightHalf(piece);
      WidthHalves(level, from, width);
      HalvesArePieces(piece, whole, Param(from), Param(width));
      SplitStep(piece, tol, level, from, width);
      TessellationIsClose(whole, l, tol, level + 1, from, half);
      TessellationIsClose(whole, r, tol, level + 1, from + half, half);
      ParamsIncreasing(l, tol, level + 1, from, half);
      JoinClose(whole, tol, Params(l, tol, level + 1, from, half), Stretches(l, tol, level + 1, half),
                Params(r, tol, level + 1, from + half, half), Stretches(r, tol, level + 1, half), from, from + half);
    }
  }

  lemma StretchStep(k: Curve, tol: real, level: nat, width: nat)
    ensures Stretches(k, tol, level, width) ==
            if Flat(k, tol) then [width]
            else if level >= MAX_LEVEL then []
            else
              Stretches(LeftHalf(k), tol, level + 1, width / 2) + Stretches(RightHalf(k), tol, level + 1, width / 2)
  {
    hide Flat, LeftHalf, RightHalf;
  }

  lemma OneClose(k: Curve, tol: real, from: nat, width: nat)
    requires CloseOn(k, tol, from, width)
    ensures AllClose(k, tol, [from + width], [width], from)
  {
    hide CloseOn;
  }

  lemma NoneClose(k: Curve, tol: real, from: nat)
    ensures AllClose(k, tol, [], [], from)
  {}

  /** So it is with the auto-tessellated curve. */
  lemma AutoTessellationIsClose(k: Curve, tol: real)
    ensures AllClose(k, tol, Params(k, tol, 0, 0, 1024), Stretches(k, tol, 0, 1024), 0)
  {
    hide At, AllClose, IsPiece;
    WholeIsPiece(k);
    TessellationIsClose(k, k, tol, 0, 0, 1024);
  }

  // ----- The code

  /** The flatness test. */
  method IsFlat(x1: real, y1: real, x2: real, y2: real, x3: real, y3: real, x4: real, y4: real, tessTol: real)
      returns (flat: bool)
    ensures flat == Flat(Curve(Point(x1, y1), Point(x2, y2), Point(x3, y3), Point(x4, y4)), tessTol)
  {
    hide Off, Negligible;
    var dx := x4 - x1;
    var dy := y4 - y1;
    var d2 := Off(x2, y2, x4, y4, dx, dy);
    var d3 := Off(x3, y3, x4, y4, dx, dy);
    d2 := if d2 >= 0.0 then d2 else -d2;
    d3 := if d3 >= 0.0 then d3 else -d3;
    flat := Negligible(d2 + d3, tessTol, dx, dy);
  }

  lemma StepParameter(i: nat, n: nat)
    requires n > 0
    ensures 1.0 / n as real * i as real == i as real / n as real
  {}

  /** One step of the fixed-step loop. */
  method StepPoint(k: Curve, tStep: real, iStep: nat, ghost n: nat) returns (p: Point)
    requires n > 0 && tStep == 1.0 / n as real
    ensures p == At(k, iStep as real / n as real)
  {
    hide Blend;
    var t := tStep * iStep as real;
    StepParameter(iStep, n);
    var u := 1.0 - t;
    var w1 := u * u * u;
    var w2 := 3.0 * u * u * t;
    var w3 := 3.0 * u * t * t;
    var w4 := t * t * t;
    assert w1 == Weight(1, t) && w2 == Weight(2, t) && w3 == Weight(3, t) && w4 == Weight(4, t);
    p := Point(Blend(w1, w2, w3, w4, k.p1.x, k.p2.x, k.p3.x, k.p4.x),
      Blend(w1, w2, w3, w4, k.p1.y, k.p2.y, k.p3.y, k.p4.y));
  }

  class PathBuilder {
    var path: seq<Point>

    method PathBezierToCasteljau(x1: real, y1: real, x2: real, y2: real, x3: real, y3: real, x4: real, y4: real,
                                 tessTol: real, level: nat)
      modifies this
      ensures path == old(path)
                + Casteljau(Curve(Point(x1, y1), Point(x2, y2), Point(x3, y3), Point(x4, y4)), tessTol, level)
      decreases MAX_LEVEL - level
    {
      hide Flat;
      ghost var k := Curve(Point(x1, y1), Point(x2, y2), Point(x3, y3), Point(x4, y4));
      var flat := IsFlat(x1, y1, x2, y2, x3, y3, x4, y4, tessTol);
      if flat {
        path := path + [Point(x4, y4)];
      } else if level < 10 {
        var x12, y12 := (x1 + x2) * 0.5, (y1 + y2) * 0.5;
        var x23, y23 := (x2 + x3) * 0.5, (y2 + y3) * 0.5;
        var x34, y34 := (x3 + x4) * 0.5, (y3 + y4) * 0.5;
        var x123, y123 := (x12 + x23) * 0.5, (y12 + y23) * 0.5;
        var x234, y234 := (x23 + x34) * 0.5, (y23 + y34) * 0.5;
        var x1234, y1234 := (x123 + x234) * 0.5, (y123 + y234) * 0.5;
        ghost var l := Curve(Point(x1, y1), Point(x12, y12), Point(x123, y123), Point(x1234, y1234));
        ghost var r := Curve(Point(x1234, y1234), Point(x234, y234), Point(x34, y34), Point(x4, y4));
        assert LeftHalf(k) == l && RightHalf(k) == r;
        PathBezierToCasteljau(x1, y1, x12, y12, x123, y123, x1234, y1234, tessTol, level + 1);
        PathBezierToCasteljau(x1234, y1234, x234, y234, x34, y34, x4, y4, tessTol, level + 1);
        assert path == old(path) + (Casteljau(l, tessTol, level + 1) + Casteljau(r, tessTol, level + 1));
      }
    }

    /** With num_segments == 0 the curve is auto-tessellated, otherwise walked in equal steps. */
    method PathBezierCurveTo(p2: Point, p3: Point, p4: Point, numSegments: nat, tessTol: real)
      requires path != []
      modifies this
      ensures var k := Curve(old(path)[|old(path)| - 1], p2, p3, p4);
              path == old(path) + if numSegments == 0 then Casteljau(k, tessTol, 0)
                else FixedSteps(k, numSegments, numSegments)
    {
      hide At, Casteljau;
      var p1 := path[|path| - 1];
      var k := Curve(p1, p2, p3, p4);
      if numSegments == 0 {
        PathBezierToCasteljau(p1.x, p1.y, p2.x, p2.y, p3.x, p3.y, p4.x, p4.y, tessTol, 0);
      } else {
        var tStep := 1.0 / numSegments as real;
        for iStep := 1 to numSegments + 1
          invariant path == old(path) + FixedSteps(k, numSegments, iStep - 1)
        {
          var p := StepPoint(k, tStep, iStep, numSegments);
          path := path + [p];
        }
      }
    }
  }

  /** The first m of n equal steps along the curve. */
  function FixedSteps(k: Curve, n: nat, m: nat): seq<Point>
    requires n > 0
  {
    if m == 0 then [] else FixedSteps(k, n, m - 1) + [At(k, m as real / n as real)]
  }

  lemma {:induction false} FixedStepAt(k: Curve, n: nat, m: nat, i: nat)
    requires 1 <= i <= m && n > 0
    ensures |FixedSteps(k, n, m)| == m && FixedSteps(k, n, m)[i - 1] == At(k, i as real / n as real)
    decreases m
  {
    hide At;
    if i < m {
      FixedStepAt(k, n, m - 1, i);
    } else if m > 1 {
      FixedStepAt(k, n, m - 1, m - 1);
    }
  }

  /** Equal steps: n points on the curve, the i-th of them after i n-ths of the way, the last at the curve's end. */
  lemma FixedStepsOnCurve(k: Curve, n: nat, i: nat)
    requires 1 <= i <= n
    ensures var points := FixedSteps(k, n, n);
            |points| == n && points[i - 1] == At(k, i as real / n as real) && points[n - 1] == k.p4
  {
    hide At;
    FixedStepAt(k, n, n, i);
    FixedStepAt(k, n, n, n);
    WholeWay(n);
    EndsOnCurve(k);
  }

  lemma WholeWay(n: nat)
    requires n > 0
    ensures n as real / n as real == 1.0
  {}
}
