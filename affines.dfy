/** Homogeneous 4x4 affines acting on 3-D points, and `coord_transform`. */
module Affines {
  import opened Results

  datatype Vec3 = Vec3(x: real, y: real, z: real)

  /** One row (a, b, c, d) of a homogeneous matrix. */
  datatype Row = Row(a: real, b: real, c: real, d: real)

  /** A 4x4 homogeneous affine, given by its rows. */
  datatype Affine = Affine(r0: Row, r1: Row, r2: Row, r3: Row)

  /** The row times the homogeneous point (x, y, z, 1). */
  function Dot(r: Row, p: Vec3): real {
    r.a * p.x + r.b * p.y + r.c * p.z + r.d
  }

  /** The first three entries of `A · (p.x, p.y, p.z, 1)`. */
  function Apply(A: Affine, p: Vec3): Vec3 {
    Vec3(Dot(A.r0, p), Dot(A.r1, p), Dot(A.r2, p))
  }

  const Identity: Affine :=
    Affine(Row(1.0, 0.0, 0.0, 0.0), Row(0.0, 1.0, 0.0, 0.0),
           Row(0.0, 0.0, 1.0, 0.0), Row(0.0, 0.0, 0.0, 1.0))

  lemma ApplyIdentity(p: Vec3)
    ensures Apply(Identity, p) == p
  {
  }

  /** True when the bottom row is (0, 0, 0, 1), as for every affine that maps
      points to points. */
  predicate IsHomogeneous(A: Affine) {
    A.r3 == Row(0.0, 0.0, 0.0, 1.0)
  }

  /** The row reads at most one of the three index coordinates. */
  predicate SingleAxis(r: Row) {
    (r.b == 0.0 && r.c == 0.0) || (r.a == 0.0 && r.c == 0.0) || (r.a == 0.0 && r.b == 0.0)
  }

  /** Each world coordinate follows one index axis, as for a diagonal affine
      of any signs or a diagonal one with its axes permuted. */
  predicate AxisAligned(A: Affine) {
    SingleAxis(A.r0) && SingleAxis(A.r1) && SingleAxis(A.r2)
  }

  function Scaled(k: real, r: Row): Row {
    Row(k * r.a, k * r.b, k * r.c, k * r.d)
  }

  function Plus(r: Row, s: Row): Row {
    Row(r.a + s.a, r.b + s.b, r.c + s.c, r.d + s.d)
  }

  /** The row `w · A` of a matrix product. */
  function Combine(w: Row, A: Affine): Row {
    Plus(Plus(Scaled(w.a, A.r0), Scaled(w.b, A.r1)), Plus(Scaled(w.c, A.r2), Scaled(w.d, A.r3)))
  }

  /** The matrix product `B · A`: first A, then B. */
  function Mul(B: Affine, A: Affine): Affine {
    Affine(Combine(B.r0, A), Combine(B.r1, A), Combine(B.r2, A), Combine(B.r3, A))
  }

  lemma DotScaled(k: real, r: Row, p: Vec3)
    ensures Dot(Scaled(k, r), p) == k * Dot(r, p)
  {
  }

  lemma DotPlus(r: Row, s: Row, p: Vec3)
    ensures Dot(Plus(r, s), p) == Dot(r, p) + Dot(s, p)
  {
  }

  /** The row `w · A` applied to p is w applied to the image of p. */
  lemma DotCombine(w: Row, A: Affine, p: Vec3)
    requires IsHomogeneous(A)
    ensures Dot(Combine(w, A), p) == Dot(w, Apply(A, p))
  {
    DotScaled(w.a, A.r0, p);
    DotScaled(w.b, A.r1, p);
    DotScaled(w.c, A.r2, p);
    DotScaled(w.d, A.r3, p);
    DotPlus(Scaled(w.a, A.r0), Scaled(w.b, A.r1), p);
    DotPlus(Scaled(w.c, A.r2), Scaled(w.d, A.r3), p);
    DotPlus(Plus(Scaled(w.a, A.r0), Scaled(w.b, A.r1)), Plus(Scaled(w.c, A.r2), Scaled(w.d, A.r3)), p);
    assert Dot(A.r3, p) == 1.0;
  }

  /** Mapping by A and then by B is mapping by the product `B · A`. */
  lemma ApplyMul(B: Affine, A: Affine, p: Vec3)
    requires IsHomogeneous(A)
    ensures Apply(B, Apply(A, p)) == Apply(Mul(B, A), p)
  {
    DotCombine(B.r0, A, p);
    DotCombine(B.r1, A, p);
    DotCombine(B.r2, A, p);
  }

  /** `coord_transform(x, y, z, affine)`: the coordinate arrays are flattened,
      stacked with a row of ones, multiplied by the affine, and the first
      three rows of the product are the new x, y and z. Arrays of different
      lengths cannot be stacked. */
  function CoordTransform(xs: seq<real>, ys: seq<real>, zs: seq<real>, A: Affine)
    : (r: Result<(seq<real>, seq<real>, seq<real>)>)
    ensures r.Err? <==> !(|xs| == |ys| == |zs|)
    ensures r.Err? ==> r.error == ShapeMismatch
    ensures r.Ok? ==> |r.value.0| == |r.value.1| == |r.value.2| == |xs|
    ensures r.Ok? ==> forall i :: 0 <= i < |xs| ==>
      Vec3(r.value.0[i], r.value.1[i], r.value.2[i]) == Apply(A, Vec3(xs[i], ys[i], zs[i]))
  {
    if |xs| != |ys| || |ys| != |zs| then Err(ShapeMismatch)
    else
      var pts := seq(|xs|, i requires 0 <= i < |xs| => Apply(A, Vec3(xs[i], ys[i], zs[i])));
      Ok((seq(|pts|, i requires 0 <= i < |pts| => pts[i].x),
          seq(|pts|, i requires 0 <= i < |pts| => pts[i].y),
          seq(|pts|, i requires 0 <= i < |pts| => pts[i].z)))
  }

  /** The identity affine gives the coordinates back unchanged. */
  lemma CoordTransformIdentity(xs: seq<real>, ys: seq<real>, zs: seq<real>)
    requires |xs| == |ys| == |zs|
    ensures CoordTransform(xs, ys, zs, Identity) == Ok((xs, ys, zs))
  {
    var r := CoordTransform(xs, ys, zs, Identity).value;
    assert r.0 == xs by {
      forall i | 0 <= i < |xs| ensures r.0[i] == xs[i] {
        assert Vec3(r.0[i], r.1[i], r.2[i]) == Apply(Identity, Vec3(xs[i], ys[i], zs[i]));
      }
    }
    assert r.1 == ys by {
      forall i | 0 <= i < |xs| ensures r.1[i] == ys[i] {
        assert Vec3(r.0[i], r.1[i], r.2[i]) == Apply(Identity, Vec3(xs[i], ys[i], zs[i]));
      }
    }
    assert r.2 == zs by {
      forall i | 0 <= i < |xs| ensures r.2[i] == zs[i] {
        assert Vec3(r.0[i], r.1[i], r.2[i]) == Apply(Identity, Vec3(xs[i], ys[i], zs[i]));
      }
    }
  }

  /** Transforming by A and then by B is transforming once by `B · A`. */
  lemma CoordTransformMul(xs: seq<real>, ys: seq<real>, zs: seq<real>, A: Affine, B: Affine)
    requires |xs| == |ys| == |zs|
    requires IsHomogeneous(A)
    ensures CoordTransform(xs, ys, zs, A).Ok?
    ensures var r := CoordTransform(xs, ys, zs, A).value;
      CoordTransform(r.0, r.1, r.2, B) == CoordTransform(xs, ys, zs, Mul(B, A))
  {
    var r := CoordTransform(xs, ys, zs, A).value;
    var s := CoordTransform(r.0, r.1, r.2, B).value;
    var t := CoordTransform(xs, ys, zs, Mul(B, A)).value;
    forall i | 0 <= i < |xs|
      ensures s.0[i] == t.0[i] && s.1[i] == t.1[i] && s.2[i] == t.2[i]
    {
      var p := Vec3(xs[i], ys[i], zs[i]);
      assert Vec3(r.0[i], r.1[i], r.2[i]) == Apply(A, p);
      assert Vec3(s.0[i], s.1[i], s.2[i]) == Apply(B, Apply(A, p));
      assert Vec3(t.0[i], t.1[i], t.2[i]) == Apply(Mul(B, A), p);
      ApplyMul(B, A, p);
    }
    assert s.0 == t.0 && s.1 == t.1 && s.2 == t.2;
  }
}
