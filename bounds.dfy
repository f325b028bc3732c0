/** `get_bounds`: the world-space extents of an array's index box under an
    affine, as the per-axis minimum and maximum over the box's eight corners. */
module Bounds {
  import opened Affines

  /** An array shape (adim, bdim, cdim). */
  datatype Shape = Shape(adim: nat, bdim: nat, cdim: nat)

  datatype Interval = Interval(lo: real, hi: real)

  /** Per-axis (min, max) pairs. */
  datatype Extents = Extents(x: Interval, y: Interval, z: Interval)

  predicate Contains(iv: Interval, v: real) {
    iv.lo <= v <= iv.hi
  }

  predicate InExtents(e: Extents, p: Vec3) {
    Contains(e.x, p.x) && Contains(e.y, p.y) && Contains(e.z, p.z)
  }

  /** Every interval of `e` lies inside the matching interval of `outer`. */
  predicate Within(e: Extents, outer: Extents) {
    outer.x.lo <= e.x.lo <= e.x.hi <= outer.x.hi &&
    outer.y.lo <= e.y.lo <= e.y.hi <= outer.y.hi &&
    outer.z.lo <= e.z.lo <= e.z.hi <= outer.z.hi
  }

  /** Whether `p` lies in the box [lo.x, hi.x] × [lo.y, hi.y] × [lo.z, hi.z]. */
  predicate InBox(lo: Vec3, hi: Vec3, p: Vec3) {
    lo.x <= p.x <= hi.x && lo.y <= p.y <= hi.y && lo.z <= p.z <= hi.z
  }

  /** The three coordinate axes. */
  datatype Axis = X | Y | Z

  function Coord(p: Vec3, a: Axis): real {
    match a
    case X => p.x
    case Y => p.y
    case Z => p.z
  }

  /** Smallest coordinate along the axis over a non-empty collection. */
  function MinOf(pts: seq<Vec3>, a: Axis): (m: real)
    requires |pts| > 0
    ensures forall i :: 0 <= i < |pts| ==> m <= Coord(pts[i], a)
    ensures exists i :: 0 <= i < |pts| && Coord(pts[i], a) == m
  {
    if |pts| == 1 then Coord(pts[0], a)
    else
      var t := MinOf(pts[1..], a);
      assert forall i :: 1 <= i < |pts| ==> pts[1..][i - 1] == pts[i];
      if Coord(pts[0], a) <= t then Coord(pts[0], a) else t
  }

  /** Largest coordinate along the axis over a non-empty collection. */
  function MaxOf(pts: seq<Vec3>, a: Axis): (m: real)
    requires |pts| > 0
    ensures forall i :: 0 <= i < |pts| ==> Coord(pts[i], a) <= m
    ensures exists i :: 0 <= i < |pts| && Coord(pts[i], a) == m
  {
    if |pts| == 1 then Coord(pts[0], a)
    else
      var t := MaxOf(pts[1..], a);
      assert forall i :: 1 <= i < |pts| ==> pts[1..][i - 1] == pts[i];
      if t <= Coord(pts[0], a) then Coord(pts[0], a) else t
  }

  function Range(pts: seq<Vec3>, a: Axis): Interval
    requires |pts| > 0
  {
    Interval(MinOf(pts, a), MaxOf(pts, a))
  }

  /** The tightest extents holding every point of a non-empty collection:
      `zip(box.min(axis=-1), box.max(axis=-1))`. */
  function ExtentsOf(pts: seq<Vec3>): (e: Extents)
    requires |pts| > 0
    ensures forall i :: 0 <= i < |pts| ==> InExtents(e, pts[i])
    ensures exists i :: 0 <= i < |pts| && pts[i].x == e.x.lo
    ensures exists i :: 0 <= i < |pts| && pts[i].x == e.x.hi
    ensures exists i :: 0 <= i < |pts| && pts[i].y == e.y.lo
    ensures exists i :: 0 <= i < |pts| && pts[i].y == e.y.hi
    ensures exists i :: 0 <= i < |pts| && pts[i].z == e.z.lo
    ensures exists i :: 0 <= i < |pts| && pts[i].z == e.z.hi
  {
    Extents(Range(pts, X), Range(pts, Y), Range(pts, Z))
  }

  /** The eight corners of the box from `lo` to `hi`, in the order
      `get_bounds` lists them (0 standing for `lo`, the dimension for `hi`). */
  function Corners(lo: Vec3, hi: Vec3): seq<Vec3> {
    [ Vec3(lo.x, lo.y, lo.z), Vec3(hi.x, lo.y, lo.z), Vec3(lo.x, hi.y, lo.z),
      Vec3(lo.x, lo.y, hi.z), Vec3(hi.x, hi.y, lo.z), Vec3(hi.x, lo.y, hi.z),
      Vec3(lo.x, hi.y, hi.z), Vec3(hi.x, hi.y, hi.z) ]
  }

  /** Each point mapped by the affine. */
  function Image(A: Affine, pts: seq<Vec3>): seq<Vec3> {
    seq(|pts|, i requires 0 <= i < |pts| => Apply(A, pts[i]))
  }

  lemma ImageIdentity(pts: seq<Vec3>)
    ensures Image(Identity, pts) == pts
  {
    forall i | 0 <= i < |pts| ensures Image(Identity, pts)[i] == pts[i] {
      ApplyIdentity(pts[i]);
    }
  }

  /** World extents of the box from `lo` to `hi` under the affine. */
  function BoxExtents(lo: Vec3, hi: Vec3, A: Affine): Extents {
    ExtentsOf(Image(A, Corners(lo, hi)))
  }

  function Dims(shape: Shape): Vec3 {
    Vec3(shape.adim as real, shape.bdim as real, shape.cdim as real)
  }

  const Origin := Vec3(0.0, 0.0, 0.0)

  /** The eight corners of [0, adim] × [0, bdim] × [0, cdim], mapped by the affine. */
  function CornerImages(shape: Shape, A: Affine): seq<Vec3> {
    Image(A, Corners(Origin, Dims(shape)))
  }

  /** `get_bounds(shape, affine)`: every transformed corner of
      [0, adim] × [0, bdim] × [0, cdim] lies within the extents, each bound is
      reached by some transformed corner, and so min <= max on every axis. */
  function GetBounds(shape: Shape, A: Affine): (e: Extents)
    ensures e.x.lo <= e.x.hi && e.y.lo <= e.y.hi && e.z.lo <= e.z.hi
    ensures forall n :: 0 <= n < 8 ==> InExtents(e, CornerImages(shape, A)[n])
    ensures exists n :: 0 <= n < 8 && CornerImages(shape, A)[n].x == e.x.lo
    ensures exists n :: 0 <= n < 8 && CornerImages(shape, A)[n].x == e.x.hi
    ensures exists n :: 0 <= n < 8 && CornerImages(shape, A)[n].y == e.y.lo
    ensures exists n :: 0 <= n < 8 && CornerImages(shape, A)[n].y == e.y.hi
    ensures exists n :: 0 <= n < 8 && CornerImages(shape, A)[n].z == e.z.lo
    ensures exists n :: 0 <= n < 8 && CornerImages(shape, A)[n].z == e.z.hi
  {
    var img := CornerImages(shape, A);
    assert |img| == 8;
    var e := BoxExtents(Origin, Dims(shape), A);
    assert InExtents(e, img[0]);
    e
  }

  /** The corner of the box that minimises the row's value, coordinate by coordinate. */
  function LowCorner(r: Row, lo: Vec3, hi: Vec3): Vec3 {
    Vec3(if r.a >= 0.0 then lo.x else hi.x,
         if r.b >= 0.0 then lo.y else hi.y,
         if r.c >= 0.0 then lo.z else hi.z)
  }

  /** The corner of the box that maximises the row's value. */
  function HighCorner(r: Row, lo: Vec3, hi: Vec3): Vec3 {
    Vec3(if r.a >= 0.0 then hi.x else lo.x,
         if r.b >= 0.0 then hi.y else lo.y,
         if r.c >= 0.0 then hi.z else lo.z)
  }

  lemma MulLe(k: real, u: real, v: real)
    requires k >= 0.0 && u <= v
    ensures k * u <= k * v
  {
  }

  /** `k * c <= k * u` when `c` lies on the side of `u` that the sign of `k` favours. */
  lemma TermLow(k: real, c: real, u: real)
    requires k >= 0.0 ==> c <= u
    requires k < 0.0 ==> u <= c
    ensures k * c <= k * u
  {
    if k >= 0.0 {
      MulLe(k, c, u);
    } else {
      MulLe(-k, u, c);
      assert (-k) * u == -(k * u) && (-k) * c == -(k * c);
    }
  }

  /** An affine function of a point of the box is bounded below by its value at
      some corner. */
  lemma LowCornerBelow(r: Row, lo: Vec3, hi: Vec3, p: Vec3)
    requires InBox(lo, hi, p)
    ensures LowCorner(r, lo, hi) in Corners(lo, hi)
    ensures Dot(r, LowCorner(r, lo, hi)) <= Dot(r, p)
  {
    var q := LowCorner(r, lo, hi);
    TermLow(r.a, q.x, p.x);
    TermLow(r.b, q.y, p.y);
    TermLow(r.c, q.z, p.z);
    DotLe(r, q, p);
  }

  lemma DotLe(r: Row, q: Vec3, p: Vec3)
    requires r.a * q.x <= r.a * p.x && r.b * q.y <= r.b * p.y && r.c * q.z <= r.c * p.z
    ensures Dot(r, q) <= Dot(r, p)
  {
  }

  lemma HighCornerAbove(r: Row, lo: Vec3, hi: Vec3, p: Vec3)
    requires InBox(lo, hi, p)
    ensures HighCorner(r, lo, hi) in Corners(lo, hi)
    ensures Dot(r, p) <= Dot(r, HighCorner(r, lo, hi))
  {
    var q := HighCorner(r, lo, hi);
    TermLow(r.a, p.x, q.x);
    TermLow(r.b, p.y, q.y);
    TermLow(r.c, p.z, q.z);
    DotLe(r, p, q);
  }

  /** The extents computed from the eight corners hold the image of every point
      of the box, not only of its corners: an affine map takes its extreme
      values over a box at corners. */
  lemma BoxExtentsCoverBox(lo: Vec3, hi: Vec3, A: Affine, p: Vec3)
    requires InBox(lo, hi, p)
    ensures InExtents(BoxExtents(lo, hi, A), Apply(A, p))
  {
    LowCornerBelow(A.r0, lo, hi, p);
    HighCornerAbove(A.r0, lo, hi, p);
    LowCornerBelow(A.r1, lo, hi, p);
    HighCornerAbove(A.r1, lo, hi, p);
    LowCornerBelow(A.r2, lo, hi, p);
    HighCornerAbove(A.r2, lo, hi, p);
    CornerImageInExtents(lo, hi, A, LowCorner(A.r0, lo, hi));
    CornerImageInExtents(lo, hi, A, HighCorner(A.r0, lo, hi));
    CornerImageInExtents(lo, hi, A, LowCorner(A.r1, lo, hi));
    CornerImageInExtents(lo, hi, A, HighCorner(A.r1, lo, hi));
    CornerImageInExtents(lo, hi, A, LowCorner(A.r2, lo, hi));
    CornerImageInExtents(lo, hi, A, HighCorner(A.r2, lo, hi));
  }

  lemma CornerImageInExtents(lo: Vec3, hi: Vec3, A: Affine, q: Vec3)
    requires q in Corners(lo, hi)
    ensures InExtents(BoxExtents(lo, hi, A), Apply(A, q))
  {
    var cs := Corners(lo, hi);
    var n :| 0 <= n < |cs| && cs[n] == q;
    assert Image(A, cs)[n] == Apply(A, q);
  }

  /** `get_bounds` bounds the world position of every point of the array's
      index box [0, adim] × [0, bdim] × [0, cdim]. */
  lemma GetBoundsCoverArray(shape: Shape, A: Affine, p: Vec3)
    requires InBox(Origin, Dims(shape), p)
    ensures InExtents(GetBounds(shape, A), Apply(A, p))
  {
    BoxExtentsCoverBox(Origin, Dims(shape), A, p);
  }

  /** The extents whose lower ends are L and upper ends are H. */
  function Spanned(L: Vec3, H: Vec3): Extents {
    Extents(Interval(L.x, H.x), Interval(L.y, H.y), Interval(L.z, H.z))
  }

  /** A collection whose every point lies in the box between two of its own
      points has exactly that box as its extents. */
  lemma ExtentsOfSpanned(pts: seq<Vec3>, l: nat, h: nat)
    requires l < |pts| && h < |pts|
    requires forall i :: 0 <= i < |pts| ==> InBox(pts[l], pts[h], pts[i])
    ensures ExtentsOf(pts) == Spanned(pts[l], pts[h])
  {
    var e := ExtentsOf(pts);
    assert InExtents(e, pts[l]) && InExtents(e, pts[h]);
  }

  /** For the identity affine the extents are (0, adim), (0, bdim), (0, cdim). */
  lemma GetBoundsIdentity(shape: Shape)
    ensures GetBounds(shape, Identity) ==
      Extents(Interval(0.0, shape.adim as real), Interval(0.0, shape.bdim as real),
              Interval(0.0, shape.cdim as real))
  {
    var d := Dims(shape);
    var cs := Corners(Origin, d);
    ImageIdentity(cs);
    forall n | 0 <= n < 8 ensures InBox(cs[0], cs[7], cs[n]) {
      CornerInBox(Origin, d, n);
    }
    ExtentsOfSpanned(cs, 0, 7);
  }

  /** An affine that scales each axis by a factor and then shifts it. */
  function ScaleShift(s: Vec3, t: Vec3): Affine {
    Affine(Row(s.x, 0.0, 0.0, t.x), Row(0.0, s.y, 0.0, t.y),
           Row(0.0, 0.0, s.z, t.z), Row(0.0, 0.0, 0.0, 1.0))
  }

  /** The image of the index axis [0, n] under `x -> sc * x + t`. */
  function ScaledAxis(sc: real, t: real, n: nat): Interval {
    Interval(t, sc * n as real + t)
  }

  /** Under a diagonal affine with non-negative scales the box from `lo` to
      `hi` maps onto the box from the image of `lo` to the image of `hi`. */
  lemma ScaleShiftBoxExtents(s: Vec3, t: Vec3, lo: Vec3, hi: Vec3)
    requires s.x >= 0.0 && s.y >= 0.0 && s.z >= 0.0
    requires lo.x <= hi.x && lo.y <= hi.y && lo.z <= hi.z
    ensures BoxExtents(lo, hi, ScaleShift(s, t)) ==
      Spanned(Apply(ScaleShift(s, t), lo), Apply(ScaleShift(s, t), hi))
  {
    var A := ScaleShift(s, t);
    var cs := Corners(lo, hi);
    var img := Image(A, cs);
    forall n | 0 <= n < 8 ensures InBox(img[0], img[7], img[n]) {
      CornerInBox(lo, hi, n);
      ScaleShiftMonotone(s, t, lo, hi, cs[n]);
    }
    ExtentsOfSpanned(img, 0, 7);
  }

  lemma ApplyScaleShift(s: Vec3, t: Vec3, p: Vec3)
    ensures Apply(ScaleShift(s, t), p) == Vec3(s.x * p.x + t.x, s.y * p.y + t.y, s.z * p.z + t.z)
  {
  }

  lemma ApplyScaleShiftOrigin(s: Vec3, t: Vec3)
    ensures Apply(ScaleShift(s, t), Origin) == t
  {
  }

  /** `get_bounds` under a diagonal affine with non-negative scales: from the
      shift to the image of the far corner. */
  lemma GetBoundsScaleShift(shape: Shape, s: Vec3, t: Vec3)
    requires s.x >= 0.0 && s.y >= 0.0 && s.z >= 0.0
    ensures GetBounds(shape, ScaleShift(s, t)) ==
      Extents(ScaledAxis(s.x, t.x, shape.adim), ScaledAxis(s.y, t.y, shape.bdim),
              ScaledAxis(s.z, t.z, shape.cdim))
  {
    ScaleShiftBoxExtents(s, t, Origin, Dims(shape));
    SpannedFromOrigin(shape, s, t);
  }

  lemma SpannedFromOrigin(shape: Shape, s: Vec3, t: Vec3)
    ensures Spanned(Apply(ScaleShift(s, t), Origin), Apply(ScaleShift(s, t), Dims(shape))) ==
      Extents(ScaledAxis(s.x, t.x, shape.adim), ScaledAxis(s.y, t.y, shape.bdim),
              ScaledAxis(s.z, t.z, shape.cdim))
  {
    ApplyScaleShiftOrigin(s, t);
    ApplyScaleShift(s, t, Dims(shape));
  }

  lemma CornerInBox(lo: Vec3, hi: Vec3, n: nat)
    requires lo.x <= hi.x && lo.y <= hi.y && lo.z <= hi.z && n < 8
    ensures InBox(lo, hi, Corners(lo, hi)[n])
  {
  }

  lemma ScaleShiftMonotone(s: Vec3, t: Vec3, lo: Vec3, hi: Vec3, q: Vec3)
    requires s.x >= 0.0 && s.y >= 0.0 && s.z >= 0.0
    requires InBox(lo, hi, q)
    ensures InBox(Apply(ScaleShift(s, t), lo), Apply(ScaleShift(s, t), hi), Apply(ScaleShift(s, t), q))
  {
    MulLe(s.x, lo.x, q.x);
    MulLe(s.x, q.x, hi.x);
    MulLe(s.y, lo.y, q.y);
    MulLe(s.y, q.y, hi.y);
    MulLe(s.z, lo.z, q.z);
    MulLe(s.z, q.z, hi.z);
  }
}
