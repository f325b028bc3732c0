/** `get_mask_bounds`: the world-space bounds of a mask's true voxels, found
    by scaling the mask's bounding slices into the extents `get_bounds` gives
    for the whole array; and the corrected bounds, taken from the corners of
    the bounding slices themselves. */
module MaskBounds {
  import opened Results
  import opened Affines
  import opened Bounds
  import opened Masks

  /** One axis of `get_mask_bounds`: the slice [start, stop) of an axis of
      `width` voxels, scaled linearly into the world interval of the whole
      axis (lemmas RescaleWithin and RescaleFull). */
  function Rescale(iv: Interval, s: Slice, width: nat): Interval
    requires s.start <= s.stop <= width && 0 < width
  {
    Interval(iv.lo + Share(s.start, width, iv.hi - iv.lo), iv.lo + Share(s.stop, width, iv.hi - iv.lo))
  }

  /** The part of a length `len` that the first `k` of `width` voxels take. */
  function Share(k: nat, width: nat, len: real): real
    requires 0 < width
  {
    k as real * len / width as real
  }

  /** A rescaled slice of an ordered interval is ordered and lies inside it. */
  lemma RescaleWithin(iv: Interval, s: Slice, width: nat)
    requires s.start <= s.stop <= width && 0 < width
    requires iv.lo <= iv.hi
    ensures iv.lo <= Rescale(iv, s, width).lo <= Rescale(iv, s, width).hi <= iv.hi
  {
    ShareOrdered(s.start, s.stop, width, iv.hi - iv.lo);
  }

  /** The slice covering the whole axis gives the interval back. */
  lemma RescaleFull(iv: Interval, width: nat)
    requires 0 < width
    ensures Rescale(iv, Slice(0, width), width) == iv
  {
    ShareEnds(width, iv.hi - iv.lo);
  }

  lemma ShareOrdered(a: nat, b: nat, width: nat, len: real)
    requires a <= b <= width && 0 < width && len >= 0.0
    ensures 0.0 <= Share(a, width, len) <= Share(b, width, len) <= len
  {
    var w := width as real;
    var q := len / w;
    DivNonneg(len, w);
    MulDiv(a as real, len, w);
    MulDiv(b as real, len, w);
    MulLe(q, 0.0, a as real);
    MulLe(q, a as real, b as real);
    MulLe(q, b as real, w);
    DivMul(len, w);
  }

  lemma DivNonneg(len: real, w: real)
    requires len >= 0.0 && w > 0.0
    ensures len / w >= 0.0
  {
  }

  lemma MulDiv(k: real, len: real, w: real)
    requires w > 0.0
    ensures k * len / w == k * (len / w)
  {
  }

  lemma DivMul(len: real, w: real)
    requires w > 0.0
    ensures w * (len / w) == len
  {
  }

  lemma ShareEnds(width: nat, len: real)
    requires 0 < width
    ensures Share(0, width, len) == 0.0 && Share(width, width, len) == len
  {
  }

  /** `get_mask_bounds(mask, affine)`: an all-false mask has no object and the
      Python code fails on `find_objects(mask)[0]`; otherwise the result lies
      within `get_bounds` of the mask's shape on every axis. */
  function GetMaskBounds(m: Mask, A: Affine): (r: Result<Extents>)
    requires WellShaped(m)
    ensures r.Err? <==> Empty(m)
    ensures r.Err? ==> r.error == NoObject
    ensures r.Ok? ==> Within(r.value, GetBounds(m.shape, A))
  {
    match FindObject(m)
    case None => Err(NoObject)
    case Some(box) => Ok(RescaleBox(GetBounds(m.shape, A), box, m.shape))
  }

  /** The three axes of `get_mask_bounds`, each rescaled on its own. */
  function RescaleBox(e: Extents, box: Box, shape: Shape): (r: Extents)
    requires box.x.start < box.x.stop <= shape.adim
    requires box.y.start < box.y.stop <= shape.bdim
    requires box.z.start < box.z.stop <= shape.cdim
    ensures e.x.lo <= e.x.hi && e.y.lo <= e.y.hi && e.z.lo <= e.z.hi ==> Within(r, e)
  {
    var r := Extents(Rescale(e.x, box.x, shape.adim), Rescale(e.y, box.y, shape.bdim),
                     Rescale(e.z, box.z, shape.cdim));
    if e.x.lo <= e.x.hi && e.y.lo <= e.y.hi && e.z.lo <= e.z.hi then
      RescaleWithin(e.x, box.x, shape.adim);
      RescaleWithin(e.y, box.y, shape.bdim);
      RescaleWithin(e.z, box.z, shape.cdim);
      r
    else
      r
  }

  /** When the bounding slices span the whole array, `get_mask_bounds` is
      `get_bounds`. */
  lemma GetMaskBoundsFull(m: Mask, A: Affine)
    requires WellShaped(m) && FindObject(m) == Some(WholeBox(m.shape))
    ensures GetMaskBounds(m, A) == Ok(GetBounds(m.shape, A))
  {
    RescaleBoxFull(GetBounds(m.shape, A), m.shape);
  }

  /** In particular when the first and the last voxel are true. */
  lemma GetMaskBoundsCorners(m: Mask, A: Affine)
    requires WellShaped(m) && m.shape.adim > 0 && m.shape.bdim > 0 && m.shape.cdim > 0
    requires At(m, 0, 0, 0) && At(m, m.shape.adim - 1, m.shape.bdim - 1, m.shape.cdim - 1)
    ensures GetMaskBounds(m, A) == Ok(GetBounds(m.shape, A))
  {
    WholeBoxFound(m);
    GetMaskBoundsFull(m, A);
  }

  /** The slices spanning every axis of the shape. */
  function WholeBox(shape: Shape): Box {
    Box(Slice(0, shape.adim), Slice(0, shape.bdim), Slice(0, shape.cdim))
  }

  lemma WholeBoxFound(m: Mask)
    requires WellShaped(m) && m.shape.adim > 0 && m.shape.bdim > 0 && m.shape.cdim > 0
    requires At(m, 0, 0, 0) && At(m, m.shape.adim - 1, m.shape.bdim - 1, m.shape.cdim - 1)
    ensures FindObject(m) == Some(WholeBox(m.shape))
  {
    var r := FindObject(m);
    assert r.Some?;
    var b := r.value;
    assert InSlices(b, 0, 0, 0);
    assert InSlices(b, m.shape.adim - 1, m.shape.bdim - 1, m.shape.cdim - 1);
    assert b.x == Slice(0, m.shape.adim) && b.y == Slice(0, m.shape.bdim) && b.z == Slice(0, m.shape.cdim);
  }

  lemma RescaleBoxFull(e: Extents, shape: Shape)
    requires shape.adim > 0 && shape.bdim > 0 && shape.cdim > 0
    ensures RescaleBox(e, WholeBox(shape), shape) == e
  {
    RescaleFull(e.x, shape.adim);
    RescaleFull(e.y, shape.bdim);
    RescaleFull(e.z, shape.cdim);
  }

  /** The lower and upper index corners of a bounding box. */
  function BoxLo(b: Box): Vec3 {
    Vec3(b.x.start as real, b.y.start as real, b.z.start as real)
  }

  function BoxHi(b: Box): Vec3 {
    Vec3(b.x.stop as real, b.y.stop as real, b.z.stop as real)
  }

  /** The index cube [i, i + 1] × [j, j + 1] × [k, k + 1] that voxel (i, j, k) occupies. */
  predicate InVoxel(i: int, j: int, k: int, p: Vec3) {
    InBox(Vec3(i as real, j as real, k as real), Vec3((i + 1) as real, (j + 1) as real, (k + 1) as real), p)
  }

  /** A box inside another has extents inside the other's, under any affine. */
  lemma BoxExtentsWithin(lo: Vec3, hi: Vec3, LO: Vec3, HI: Vec3, A: Affine)
    requires InBox(LO, HI, lo) && InBox(LO, HI, hi) && InBox(lo, hi, hi)
    ensures Within(BoxExtents(lo, hi, A), BoxExtents(LO, HI, A))
  {
    var E := BoxExtents(LO, HI, A);
    var cs := Corners(lo, hi);
    var img := Image(A, cs);
    forall n | 0 <= n < 8 ensures InExtents(E, img[n]) {
      CornerInside(lo, hi, LO, HI, n);
      BoxExtentsCoverBox(LO, HI, A, cs[n]);
    }
    ExtentsOfWithin(img, E);
  }

  lemma CornerInside(lo: Vec3, hi: Vec3, LO: Vec3, HI: Vec3, n: nat)
    requires InBox(LO, HI, lo) && InBox(LO, HI, hi) && n < 8
    ensures InBox(LO, HI, Corners(lo, hi)[n])
  {
  }

  /** The tight extents of points that all lie within `E` lie within `E`. */
  lemma ExtentsOfWithin(pts: seq<Vec3>, E: Extents)
    requires |pts| > 0
    requires forall i :: 0 <= i < |pts| ==> InExtents(E, pts[i])
    ensures Within(ExtentsOf(pts), E)
  {
    assert InExtents(ExtentsOf(pts), pts[0]);
  }

  /** The world-space bounds of the mask's true voxels: the extents of the
      corners of its bounding slices under the affine. For any affine, they
      lie within `get_bounds` and hold every point of every true voxel
      (lemma MaskWorldBoundsCoverVoxels); for an axis-aligned affine each
      bound is also reached by a true voxel (lemma MaskWorldBoundsTight). */
  function MaskWorldBounds(m: Mask, A: Affine): (r: Result<Extents>)
    requires WellShaped(m)
    ensures r.Err? <==> Empty(m)
    ensures r.Err? ==> r.error == NoObject
    ensures r.Ok? ==> Within(r.value, GetBounds(m.shape, A))
  {
    match FindObject(m)
    case None => Err(NoObject)
    case Some(box) =>
      BoxExtentsWithin(BoxLo(box), BoxHi(box), Origin, Dims(m.shape), A);
      Ok(BoxExtents(BoxLo(box), BoxHi(box), A))
  }

  /** The corrected bounds hold the world position of every point of every
      true voxel. */
  lemma MaskWorldBoundsCoverVoxels(m: Mask, A: Affine, i: int, j: int, k: int, p: Vec3)
    requires WellShaped(m) && At(m, i, j, k) && InVoxel(i, j, k, p)
    ensures MaskWorldBounds(m, A).Ok?
    ensures InExtents(MaskWorldBounds(m, A).value, Apply(A, p))
  {
    var box := FindObject(m).value;
    assert InSlices(box, i, j, k);
    BoxExtentsCoverBox(BoxLo(box), BoxHi(box), A, p);
  }

  /** Some point of some true voxel has world coordinate `v` under the row. */
  ghost predicate Reached(m: Mask, r: Row, v: real) {
    exists i, j, k, p :: At(m, i, j, k) && InVoxel(i, j, k, p) && Dot(r, p) == v
  }

  /** Each of the six bounds is the world coordinate of a point of a true voxel. */
  ghost predicate BoundsReached(m: Mask, A: Affine, e: Extents) {
    Reached(m, A.r0, e.x.lo) && Reached(m, A.r0, e.x.hi) &&
    Reached(m, A.r1, e.y.lo) && Reached(m, A.r1, e.y.hi) &&
    Reached(m, A.r2, e.z.lo) && Reached(m, A.r2, e.z.hi)
  }

  /** Under an axis-aligned affine the corrected bounds are tight: together
      with MaskWorldBoundsCoverVoxels, each bound is the least or greatest
      world coordinate of the mask's true voxels. */
  lemma MaskWorldBoundsTight(m: Mask, A: Affine)
    requires WellShaped(m) && AxisAligned(A)
    ensures MaskWorldBounds(m, A).Ok? ==> BoundsReached(m, A, MaskWorldBounds(m, A).value)
  {
    if !Empty(m) {
      var box := FindObject(m).value;
      var e := BoxExtents(BoxLo(box), BoxHi(box), A);
      assert MaskWorldBounds(m, A) == Ok(e);
      XBoundsReached(m, box, A, e);
      YBoundsReached(m, box, A, e);
      ZBoundsReached(m, box, A, e);
    }
  }

  lemma XBoundsReached(m: Mask, box: Box, A: Affine, e: Extents)
    requires TightBox(m, box) && SingleAxis(A.r0)
    requires e == BoxExtents(BoxLo(box), BoxHi(box), A)
    ensures Reached(m, A.r0, e.x.lo) && Reached(m, A.r0, e.x.hi)
  {
    var cs := Corners(BoxLo(box), BoxHi(box));
    var img := Image(A, cs);
    var lo :| 0 <= lo < 8 && img[lo].x == e.x.lo;
    CornerReached(m, box, A.r0, cs[lo]);
    var hi :| 0 <= hi < 8 && img[hi].x == e.x.hi;
    CornerReached(m, box, A.r0, cs[hi]);
  }

  lemma YBoundsReached(m: Mask, box: Box, A: Affine, e: Extents)
    requires TightBox(m, box) && SingleAxis(A.r1)
    requires e == BoxExtents(BoxLo(box), BoxHi(box), A)
    ensures Reached(m, A.r1, e.y.lo) && Reached(m, A.r1, e.y.hi)
  {
    var cs := Corners(BoxLo(box), BoxHi(box));
    var img := Image(A, cs);
    var lo :| 0 <= lo < 8 && img[lo].y == e.y.lo;
    CornerReached(m, box, A.r1, cs[lo]);
    var hi :| 0 <= hi < 8 && img[hi].y == e.y.hi;
    CornerReached(m, box, A.r1, cs[hi]);
  }

  lemma ZBoundsReached(m: Mask, box: Box, A: Affine, e: Extents)
    requires TightBox(m, box) && SingleAxis(A.r2)
    requires e == BoxExtents(BoxLo(box), BoxHi(box), A)
    ensures Reached(m, A.r2, e.z.lo) && Reached(m, A.r2, e.z.hi)
  {
    var cs := Corners(BoxLo(box), BoxHi(box));
    var img := Image(A, cs);
    var lo :| 0 <= lo < 8 && img[lo].z == e.z.lo;
    CornerReached(m, box, A.r2, cs[lo]);
    var hi :| 0 <= hi < 8 && img[hi].z == e.z.hi;
    CornerReached(m, box, A.r2, cs[hi]);
  }

  /** A row reading one index axis takes the same value at a corner of the
      tight box as at a point of a true voxel on the matching face. */
  lemma CornerReached(m: Mask, box: Box, r: Row, q: Vec3)
    requires TightBox(m, box) && SingleAxis(r)
    requires q in Corners(BoxLo(box), BoxHi(box))
    ensures Reached(m, r, Dot(r, q))
  {
    if r.b == 0.0 && r.c == 0.0 {
      ReachedX(m, box.x, r, q);
    } else if r.a == 0.0 && r.c == 0.0 {
      ReachedY(m, box.y, r, q);
    } else {
      ReachedZ(m, box.z, r, q);
    }
  }

  lemma ReachedX(m: Mask, sl: Slice, r: Row, q: Vec3)
    requires TightX(m, sl) && r.b == 0.0 && r.c == 0.0
    requires q.x == sl.start as real || q.x == sl.stop as real
    ensures Reached(m, r, Dot(r, q))
  {
    var i := if q.x == sl.start as real then sl.start else sl.stop - 1;
    assert PlaneX(m, i);
    var j, k :| At(m, i, j, k);
    var p := Vec3(q.x, j as real, k as real);
    assert InVoxel(i, j, k, p);
    assert Dot(r, p) == Dot(r, q);
  }

  lemma ReachedY(m: Mask, sl: Slice, r: Row, q: Vec3)
    requires TightY(m, sl) && r.a == 0.0 && r.c == 0.0
    requires q.y == sl.start as real || q.y == sl.stop as real
    ensures Reached(m, r, Dot(r, q))
  {
    var j := if q.y == sl.start as real then sl.start else sl.stop - 1;
    assert PlaneY(m, j);
    var i, k :| At(m, i, j, k);
    var p := Vec3(i as real, q.y, k as real);
    assert InVoxel(i, j, k, p);
    assert Dot(r, p) == Dot(r, q);
  }

  lemma ReachedZ(m: Mask, sl: Slice, r: Row, q: Vec3)
    requires TightZ(m, sl) && r.a == 0.0 && r.b == 0.0
    requires q.z == sl.start as real || q.z == sl.stop as real
    ensures Reached(m, r, Dot(r, q))
  {
    var k := if q.z == sl.start as real then sl.start else sl.stop - 1;
    assert PlaneZ(m, k);
    var i, j :| At(m, i, j, k);
    var p := Vec3(i as real, j as real, q.z);
    assert InVoxel(i, j, k, p);
    assert Dot(r, p) == Dot(r, q);
  }

  lemma DivCancel(a: real, w: real, q: real)
    requires w != 0.0 && a == q * w
    ensures a / w == q
  {
  }

  /** The part of a scaled-and-shifted axis that `k` voxels take. */
  lemma ScaledShare(sc: real, t: real, k: nat, width: nat)
    requires 0 < width
    ensures Share(k, width, (sc * width as real + t) - t) == sc * k as real
  {
    assert k as real * ((sc * width as real + t) - t) == (sc * k as real) * width as real;
    DivCancel(k as real * ((sc * width as real + t) - t), width as real, sc * k as real);
  }

  /** Rescaling the world interval of a scaled-and-shifted axis gives the
      image of the slice's own ends. */
  lemma RescaleScaled(sc: real, t: real, sl: Slice, width: nat)
    requires sl.start <= sl.stop <= width && 0 < width
    ensures Rescale(ScaledAxis(sc, t, width), sl, width) == ScaledSlice(sc, t, sl)
  {
    ScaledShare(sc, t, sl.start, width);
    ScaledShare(sc, t, sl.stop, width);
  }

  /** For an affine that scales each axis by a non-negative factor and shifts
      it, `get_mask_bounds` is the world extent of the mask's bounding slices:
      the case the Python code was written for. */
  lemma GetMaskBoundsScaleShift(m: Mask, s: Vec3, t: Vec3)
    requires WellShaped(m)
    requires s.x >= 0.0 && s.y >= 0.0 && s.z >= 0.0
    ensures GetMaskBounds(m, ScaleShift(s, t)) == MaskWorldBounds(m, ScaleShift(s, t))
  {
    var A := ScaleShift(s, t);
    if !Empty(m) {
      var box := FindObject(m).value;
      assert GetMaskBounds(m, A) == Ok(RescaleBox(GetBounds(m.shape, A), box, m.shape));
      assert MaskWorldBounds(m, A) == Ok(BoxExtents(BoxLo(box), BoxHi(box), A));
      RescaleBoxScaleShift(box, m.shape, s, t);
      BoxWorldScaleShift(box, s, t);
    }
  }

  /** On those affines the Python result is therefore tight as well: each of
      its six bounds is reached by a point of a true voxel. */
  lemma GetMaskBoundsScaleShiftTight(m: Mask, s: Vec3, t: Vec3)
    requires WellShaped(m)
    requires s.x >= 0.0 && s.y >= 0.0 && s.z >= 0.0
    ensures GetMaskBounds(m, ScaleShift(s, t)).Ok? ==>
      BoundsReached(m, ScaleShift(s, t), GetMaskBounds(m, ScaleShift(s, t)).value)
  {
    GetMaskBoundsScaleShift(m, s, t);
    assert AxisAligned(ScaleShift(s, t));
    MaskWorldBoundsTight(m, ScaleShift(s, t));
  }

  /** The image of a slice's ends under `x -> sc * x + t`. */
  function ScaledSlice(sc: real, t: real, sl: Slice): Interval {
    Interval(sc * sl.start as real + t, sc * sl.stop as real + t)
  }

  /** The images of the bounding slices' ends, axis by axis. */
  function ScaledSlices(box: Box, s: Vec3, t: Vec3): Extents {
    Extents(ScaledSlice(s.x, t.x, box.x), ScaledSlice(s.y, t.y, box.y), ScaledSlice(s.z, t.z, box.z))
  }

  lemma RescaleBoxScaleShift(box: Box, shape: Shape, s: Vec3, t: Vec3)
    requires box.x.start < box.x.stop <= shape.adim
    requires box.y.start < box.y.stop <= shape.bdim
    requires box.z.start < box.z.stop <= shape.cdim
    requires s.x >= 0.0 && s.y >= 0.0 && s.z >= 0.0
    ensures RescaleBox(GetBounds(shape, ScaleShift(s, t)), box, shape) == ScaledSlices(box, s, t)
  {
    RescaleBoxScaled(box, shape, s, t);
    GetBoundsScaleShift(shape, s, t);
  }

  lemma RescaleBoxScaled(box: Box, shape: Shape, s: Vec3, t: Vec3)
    requires box.x.start < box.x.stop <= shape.adim
    requires box.y.start < box.y.stop <= shape.bdim
    requires box.z.start < box.z.stop <= shape.cdim
    ensures RescaleBox(Extents(ScaledAxis(s.x, t.x, shape.adim), ScaledAxis(s.y, t.y, shape.bdim),
                               ScaledAxis(s.z, t.z, shape.cdim)), box, shape)
      == ScaledSlices(box, s, t)
  {
    RescaleScaled(s.x, t.x, box.x, shape.adim);
    RescaleScaled(s.y, t.y, box.y, shape.bdim);
    RescaleScaled(s.z, t.z, box.z, shape.cdim);
  }

  lemma BoxWorldScaleShift(box: Box, s: Vec3, t: Vec3)
    requires box.x.start <= box.x.stop && box.y.start <= box.y.stop && box.z.start <= box.z.stop
    requires s.x >= 0.0 && s.y >= 0.0 && s.z >= 0.0
    ensures BoxExtents(BoxLo(box), BoxHi(box), ScaleShift(s, t)) == ScaledSlices(box, s, t)
  {
    var lo, hi := BoxLo(box), BoxHi(box);
    ApplyScaleShift(s, t, lo);
    ApplyScaleShift(s, t, hi);
    SpannedScaled(box, Apply(ScaleShift(s, t), lo), Apply(ScaleShift(s, t), hi), s, t);
    ScaleShiftBoxExtents(s, t, lo, hi);
  }

  lemma SpannedScaled(box: Box, L: Vec3, H: Vec3, s: Vec3, t: Vec3)
    requires L == Vec3(s.x * box.x.start as real + t.x, s.y * box.y.start as real + t.y, s.z * box.z.start as real + t.z)
    requires H == Vec3(s.x * box.x.stop as real + t.x, s.y * box.y.stop as real + t.y, s.z * box.z.stop as real + t.z)
    ensures Spanned(L, H) == ScaledSlices(box, s, t)
  {
  }

  /** The shape of a 2 x 1 x 1 array. */
  const TwoByOne := Shape(2, 1, 1)

  /** A 2 x 1 x 1 mask whose only true voxel is the first one. */
  predicate FirstOfTwo(m: Mask) {
    WellShaped(m) && m.shape == TwoByOne && At(m, 0, 0, 0) && !At(m, 1, 0, 0)
  }

  const FirstOfTwoMask := Mask(TwoByOne, [[[true]], [[false]]])

  lemma FirstOfTwoMaskIs()
    ensures FirstOfTwo(FirstOfTwoMask)
  {
  }

  /** The bounding box of the first voxel alone. */
  const FirstVoxel := Box(Slice(0, 1), Slice(0, 1), Slice(0, 1))

  const UnitCube := Vec3(1.0, 1.0, 1.0)

  lemma FirstOfTwoBox(m: Mask)
    requires FirstOfTwo(m)
    ensures FindObject(m) == Some(FirstVoxel)
  {
    assert !PlaneX(m, 1);
    var b := FindObject(m).value;
    assert InSlices(b, 0, 0, 0);
  }

  /** `get_mask_bounds` of such a mask rescales the first-voxel box into
      `get_bounds`; the corrected bounds are the extents of the unit cube. */
  lemma FirstOfTwoMaskBounds(m: Mask, A: Affine)
    requires FirstOfTwo(m)
    ensures GetMaskBounds(m, A) == Ok(RescaleBox(GetBounds(TwoByOne, A), FirstVoxel, TwoByOne))
    ensures MaskWorldBounds(m, A) == Ok(BoxExtents(Origin, UnitCube, A))
  {
    FirstOfTwoBox(m);
    assert BoxLo(FirstVoxel) == Origin && BoxHi(FirstVoxel) == UnitCube;
  }

  /** The first voxel's slices, rescaled into extents spanning the 2 x 1 x 1 array. */
  lemma FirstVoxelRescaled(e: Extents)
    ensures RescaleBox(e, FirstVoxel, TwoByOne) ==
      Extents(Interval(e.x.lo, e.x.lo + (e.x.hi - e.x.lo) / 2.0), e.y, e.z)
  {
    RescaleFull(e.y, 1);
    RescaleFull(e.z, 1);
  }

  /** Mirror the first axis: x maps to -x. */
  const FlipX := Affine(Row(-1.0, 0.0, 0.0, 0.0), Row(0.0, 1.0, 0.0, 0.0),
                        Row(0.0, 0.0, 1.0, 0.0), Row(0.0, 0.0, 0.0, 1.0))

  /** Exchange the first two axes. */
  const SwapXY := Affine(Row(0.0, 1.0, 0.0, 0.0), Row(1.0, 0.0, 0.0, 0.0),
                         Row(0.0, 0.0, 1.0, 0.0), Row(0.0, 0.0, 0.0, 1.0))

  lemma ApplyFlipX(p: Vec3)
    ensures Apply(FlipX, p) == Vec3(-p.x, p.y, p.z)
  {
  }

  lemma ApplySwapXY(p: Vec3)
    ensures Apply(SwapXY, p) == Vec3(p.y, p.x, p.z)
  {
  }

  /** Mirroring the first axis mirrors the box's first interval. */
  lemma FlipXBoxExtents(lo: Vec3, hi: Vec3)
    requires lo.x <= hi.x && lo.y <= hi.y && lo.z <= hi.z
    ensures BoxExtents(lo, hi, FlipX) ==
      Extents(Interval(-hi.x, -lo.x), Interval(lo.y, hi.y), Interval(lo.z, hi.z))
  {
    var cs := Corners(lo, hi);
    var img := Image(FlipX, cs);
    forall n | 0 <= n < 8 ensures img[n] == Vec3(-cs[n].x, cs[n].y, cs[n].z) {
      ApplyFlipX(cs[n]);
    }
    assert forall n :: 0 <= n < 8 ==> InBox(img[1], img[6], img[n]);
    ExtentsOfSpanned(img, 1, 6);
  }

  /** Exchanging the first two axes exchanges the box's first two intervals. */
  lemma SwapXYBoxExtents(lo: Vec3, hi: Vec3)
    requires lo.x <= hi.x && lo.y <= hi.y && lo.z <= hi.z
    ensures BoxExtents(lo, hi, SwapXY) ==
      Extents(Interval(lo.y, hi.y), Interval(lo.x, hi.x), Interval(lo.z, hi.z))
  {
    var cs := Corners(lo, hi);
    var img := Image(SwapXY, cs);
    forall n | 0 <= n < 8 ensures img[n] == Vec3(cs[n].y, cs[n].x, cs[n].z) {
      ApplySwapXY(cs[n]);
    }
    assert forall n :: 0 <= n < 8 ==> InBox(img[0], img[7], img[n]);
    ExtentsOfSpanned(img, 0, 7);
  }

  /** `get_bounds` of the 2 x 1 x 1 array under the mirror. */
  lemma FlipXTwoBounds()
    ensures GetBounds(TwoByOne, FlipX) ==
      Extents(Interval(-2.0, 0.0), Interval(0.0, 1.0), Interval(0.0, 1.0))
  {
    assert Dims(TwoByOne) == Vec3(2.0, 1.0, 1.0);
    FlipXBoxExtents(Origin, Vec3(2.0, 1.0, 1.0));
  }

  /** `get_bounds` of the 2 x 1 x 1 array under the exchange of the first two axes. */
  lemma SwapXYTwoBounds()
    ensures GetBounds(TwoByOne, SwapXY) ==
      Extents(Interval(0.0, 1.0), Interval(0.0, 2.0), Interval(0.0, 1.0))
  {
    assert Dims(TwoByOne) == Vec3(2.0, 1.0, 1.0);
    SwapXYBoxExtents(Origin, Vec3(2.0, 1.0, 1.0));
  }

  /** Under the mirror, `get_mask_bounds` of such a mask gives the world range
      of the second voxel, the false one. */
  lemma FlippedAxisMaskBounds(m: Mask)
    requires FirstOfTwo(m)
    ensures GetMaskBounds(m, FlipX) ==
      Ok(Extents(Interval(-2.0, -1.0), Interval(0.0, 1.0), Interval(0.0, 1.0)))
  {
    FirstOfTwoMaskBounds(m, FlipX);
    var e := GetBounds(TwoByOne, FlipX);
    FlipXTwoBounds();
    FirstVoxelRescaled(e);
  }

  /** Under the mirror, the world range of the true voxel. */
  lemma FlippedAxisWorldBounds(m: Mask)
    requires FirstOfTwo(m)
    ensures MaskWorldBounds(m, FlipX) ==
      Ok(Extents(Interval(-1.0, 0.0), Interval(0.0, 1.0), Interval(0.0, 1.0)))
  {
    FirstOfTwoMaskBounds(m, FlipX);
    FlipXBoxExtents(Origin, UnitCube);
  }

  /** A point whose first coordinate lies outside the first interval of the
      bounds lies outside the bounds. */
  lemma OutsideOnX(r: Result<Extents>, e: Extents, p: Vec3)
    requires r == Ok(e) && !(e.x.lo <= p.x <= e.x.hi)
    ensures r.Ok? && !InExtents(r.value, p)
  {
  }

  /** With the first axis mirrored, the centre of the one true voxel falls
      outside the bounds `get_mask_bounds` returns, and inside the corrected
      bounds. */
  lemma FlippedAxisCounterexample(m: Mask)
    requires FirstOfTwo(m)
    ensures InVoxel(0, 0, 0, Vec3(0.5, 0.5, 0.5))
    ensures GetMaskBounds(m, FlipX).Ok? && MaskWorldBounds(m, FlipX).Ok?
    ensures !InExtents(GetMaskBounds(m, FlipX).value, Apply(FlipX, Vec3(0.5, 0.5, 0.5)))
    ensures InExtents(MaskWorldBounds(m, FlipX).value, Apply(FlipX, Vec3(0.5, 0.5, 0.5)))
  {
    var c := Vec3(0.5, 0.5, 0.5);
    assert InVoxel(0, 0, 0, c);
    MaskWorldBoundsCoverVoxels(m, FlipX, 0, 0, 0, c);
    ApplyFlipX(c);
    FlippedAxisMaskBounds(m);
    OutsideOnX(GetMaskBounds(m, FlipX), Extents(Interval(-2.0, -1.0), Interval(0.0, 1.0), Interval(0.0, 1.0)),
               Apply(FlipX, c));
  }

  /** With the first two axes exchanged, `get_mask_bounds` of such a mask
      scales the first index slice into the world x range, which the second
      index axis spans. */
  lemma SwappedAxesMaskBounds(m: Mask)
    requires FirstOfTwo(m)
    ensures GetMaskBounds(m, SwapXY) ==
      Ok(Extents(Interval(0.0, 0.5), Interval(0.0, 2.0), Interval(0.0, 1.0)))
  {
    FirstOfTwoMaskBounds(m, SwapXY);
    var e := GetBounds(TwoByOne, SwapXY);
    SwapXYTwoBounds();
    FirstVoxelRescaled(e);
  }

  /** With the first two axes exchanged, the world range of the true voxel. */
  lemma SwappedAxesWorldBounds(m: Mask)
    requires FirstOfTwo(m)
    ensures MaskWorldBounds(m, SwapXY) ==
      Ok(Extents(Interval(0.0, 1.0), Interval(0.0, 1.0), Interval(0.0, 1.0)))
  {
    FirstOfTwoMaskBounds(m, SwapXY);
    SwapXYBoxExtents(Origin, UnitCube);
  }

  /** With the first two axes exchanged, a point of the one true voxel falls
      outside the bounds `get_mask_bounds` returns, and inside the corrected
      bounds. */
  lemma SwappedAxesCounterexample(m: Mask)
    requires FirstOfTwo(m)
    ensures InVoxel(0, 0, 0, Vec3(0.5, 0.9, 0.5))
    ensures GetMaskBounds(m, SwapXY).Ok? && MaskWorldBounds(m, SwapXY).Ok?
    ensures !InExtents(GetMaskBounds(m, SwapXY).value, Apply(SwapXY, Vec3(0.5, 0.9, 0.5)))
    ensures InExtents(MaskWorldBounds(m, SwapXY).value, Apply(SwapXY, Vec3(0.5, 0.9, 0.5)))
  {
    var c := Vec3(0.5, 0.9, 0.5);
    assert InVoxel(0, 0, 0, c);
    MaskWorldBoundsCoverVoxels(m, SwapXY, 0, 0, 0, c);
    ApplySwapXY(c);
    SwappedAxesMaskBounds(m);
    OutsideOnX(GetMaskBounds(m, SwapXY), Extents(Interval(0.0, 0.5), Interval(0.0, 2.0), Interval(0.0, 1.0)),
               Apply(SwapXY, c));
  }
}
