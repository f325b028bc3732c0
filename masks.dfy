/** Boolean 3-D masks and the bounding slices of their true voxels, the part
    of `ndimage.find_objects(mask)[0]` that `get_mask_bounds` uses. */
module Masks {
  import opened Results
  import opened Bounds

  /** A boolean array of the given shape, indexed `cells[i][j][k]`. */
  datatype Mask = Mask(shape: Shape, cells: seq<seq<seq<bool>>>)

  /** The nested sequences have the lengths the shape says, as a numpy array's do. */
  predicate WellShaped(m: Mask) {
    |m.cells| == m.shape.adim &&
    forall i :: 0 <= i < |m.cells| ==>
      |m.cells[i]| == m.shape.bdim &&
      forall j :: 0 <= j < |m.cells[i]| ==> |m.cells[i][j]| == m.shape.cdim
  }

  /** Whether voxel (i, j, k) exists and is true. */
  predicate At(m: Mask, i: int, j: int, k: int) {
    0 <= i < |m.cells| && 0 <= j < |m.cells[i]| && 0 <= k < |m.cells[i][j]| && m.cells[i][j][k]
  }

  ghost predicate Empty(m: Mask) {
    forall i, j, k :: !At(m, i, j, k)
  }

  /** A half-open index range [start, stop), as a Python slice. */
  datatype Slice = Slice(start: nat, stop: nat)

  /** One slice per axis. */
  datatype Box = Box(x: Slice, y: Slice, z: Slice)

  /** Whether the plane i across the first axis holds a true voxel. */
  ghost predicate PlaneX(m: Mask, i: int) { exists j, k :: At(m, i, j, k) }

  /** Whether the plane j across the second axis holds a true voxel. */
  ghost predicate PlaneY(m: Mask, j: int) { exists i, k :: At(m, i, j, k) }

  /** Whether the plane k across the third axis holds a true voxel. */
  ghost predicate PlaneZ(m: Mask, k: int) { exists i, j :: At(m, i, j, k) }

  /** The mask projected onto the first axis. */
  function ProfileX(m: Mask): (p: seq<bool>)
    requires WellShaped(m)
    ensures |p| == m.shape.adim
    ensures forall i :: 0 <= i < |p| ==> (p[i] <==> PlaneX(m, i))
  {
    seq(m.shape.adim, i => exists j, k | 0 <= j < m.shape.bdim && 0 <= k < m.shape.cdim :: At(m, i, j, k))
  }

  /** The mask projected onto the second axis. */
  function ProfileY(m: Mask): (p: seq<bool>)
    requires WellShaped(m)
    ensures |p| == m.shape.bdim
    ensures forall j :: 0 <= j < |p| ==> (p[j] <==> PlaneY(m, j))
  {
    seq(m.shape.bdim, j => exists i, k | 0 <= i < m.shape.adim && 0 <= k < m.shape.cdim :: At(m, i, j, k))
  }

  /** The mask projected onto the third axis. */
  function ProfileZ(m: Mask): (p: seq<bool>)
    requires WellShaped(m)
    ensures |p| == m.shape.cdim
    ensures forall k :: 0 <= k < |p| ==> (p[k] <==> PlaneZ(m, k))
  {
    seq(m.shape.cdim, k => exists i, j | 0 <= i < m.shape.adim && 0 <= j < m.shape.bdim :: At(m, i, j, k))
  }

  /** The first index holding true, or |s| when there is none. */
  function FirstTrue(s: seq<bool>): (r: nat)
    ensures r <= |s|
    ensures forall i :: 0 <= i < r ==> !s[i]
    ensures r < |s| ==> s[r]
  {
    if s == [] || s[0] then 0
    else
      assert forall i :: 1 <= i < |s| ==> s[1..][i - 1] == s[i];
      1 + FirstTrue(s[1..])
  }

  /** One past the last index holding true, or 0 when there is none. */
  function LastTrueEnd(s: seq<bool>): (r: nat)
    ensures r <= |s|
    ensures forall i :: r <= i < |s| ==> !s[i]
    ensures r > 0 ==> s[r - 1]
  {
    if s == [] || s[|s| - 1] then |s|
    else LastTrueEnd(s[..|s| - 1])
  }

  /** The smallest slice holding every true index of `s`, if any. */
  function Span(s: seq<bool>): (r: Option<Slice>)
    ensures r.None? <==> forall i :: 0 <= i < |s| ==> !s[i]
    ensures r.Some? ==> r.value.start < r.value.stop <= |s|
    ensures r.Some? ==> s[r.value.start] && s[r.value.stop - 1]
    ensures r.Some? ==> forall i :: 0 <= i < |s| && s[i] ==> r.value.start <= i < r.value.stop
  {
    var start := FirstTrue(s);
    if start == |s| then None else Some(Slice(start, LastTrueEnd(s)))
  }

  /** Whether voxel (i, j, k) lies inside the box. */
  predicate InSlices(b: Box, i: int, j: int, k: int) {
    b.x.start <= i < b.x.stop && b.y.start <= j < b.y.stop && b.z.start <= k < b.z.stop
  }

  /** The slice holds the first index of every true voxel, fits in the
      shape, and its first and last planes each hold a true voxel. */
  ghost predicate TightX(m: Mask, s: Slice) {
    s.start < s.stop <= m.shape.adim && PlaneX(m, s.start) && PlaneX(m, s.stop - 1) &&
    forall i, j, k :: At(m, i, j, k) ==> s.start <= i < s.stop
  }

  /** As TightX, along the second axis. */
  ghost predicate TightY(m: Mask, s: Slice) {
    s.start < s.stop <= m.shape.bdim && PlaneY(m, s.start) && PlaneY(m, s.stop - 1) &&
    forall i, j, k :: At(m, i, j, k) ==> s.start <= j < s.stop
  }

  /** As TightX, along the third axis. */
  ghost predicate TightZ(m: Mask, s: Slice) {
    s.start < s.stop <= m.shape.cdim && PlaneZ(m, s.start) && PlaneZ(m, s.stop - 1) &&
    forall i, j, k :: At(m, i, j, k) ==> s.start <= k < s.stop
  }

  /** The box holds every true voxel, fits in the shape, and each of its six
      faces touches a true voxel: it is the smallest box holding the true voxels. */
  ghost predicate TightBox(m: Mask, b: Box) {
    TightX(m, b.x) && TightY(m, b.y) && TightZ(m, b.z)
  }

  /** The bounding slices of the true voxels, as `find_objects(mask)[0]`
      gives them: None when the mask has no true voxel (find_objects then
      returns an empty list), and otherwise the tight box. */
  function FindObject(m: Mask): (r: Option<Box>)
    requires WellShaped(m)
    ensures r.None? <==> Empty(m)
    ensures r.Some? ==> TightBox(m, r.value)
  {
    var sx := Span(ProfileX(m));
    ProfilesAgree(m, ProfileX(m), ProfileY(m), ProfileZ(m));
    if sx.None? then None
    else
      SpanX(m);
      SpanY(m);
      SpanZ(m);
      Some(Box(sx.value, Span(ProfileY(m)).value, Span(ProfileZ(m)).value))
  }

  lemma SpanX(m: Mask)
    requires WellShaped(m) && Span(ProfileX(m)).Some?
    ensures TightX(m, Span(ProfileX(m)).value)
  {
    var p := ProfileX(m);
    forall i, j, k | At(m, i, j, k) ensures p[i] { VoxelInProfiles(m, i, j, k); }
  }

  lemma SpanY(m: Mask)
    requires WellShaped(m) && Span(ProfileY(m)).Some?
    ensures TightY(m, Span(ProfileY(m)).value)
  {
    var p := ProfileY(m);
    forall i, j, k | At(m, i, j, k) ensures p[j] { VoxelInProfiles(m, i, j, k); }
  }

  lemma SpanZ(m: Mask)
    requires WellShaped(m) && Span(ProfileZ(m)).Some?
    ensures TightZ(m, Span(ProfileZ(m)).value)
  {
    var p := ProfileZ(m);
    forall i, j, k | At(m, i, j, k) ensures p[k] { VoxelInProfiles(m, i, j, k); }
  }

  /** A true voxel shows in all three profiles. */
  lemma VoxelInProfiles(m: Mask, i: int, j: int, k: int)
    requires WellShaped(m) && At(m, i, j, k)
    ensures 0 <= i < m.shape.adim && 0 <= j < m.shape.bdim && 0 <= k < m.shape.cdim
    ensures ProfileX(m)[i] && ProfileY(m)[j] && ProfileZ(m)[k]
  {
    assert PlaneX(m, i) && PlaneY(m, j) && PlaneZ(m, k);
  }

  /** A mask is empty exactly when one of its profiles is all false. */
  lemma EmptyIffProfileFalse(m: Mask, p: seq<bool>)
    requires WellShaped(m)
    requires p == ProfileX(m) || p == ProfileY(m) || p == ProfileZ(m)
    ensures Empty(m) <==> forall n :: 0 <= n < |p| ==> !p[n]
  {
    if !Empty(m) {
      var i, j, k :| At(m, i, j, k);
      VoxelInProfiles(m, i, j, k);
    }
  }

  /** The three profiles are empty together. */
  lemma ProfilesAgree(m: Mask, px: seq<bool>, py: seq<bool>, pz: seq<bool>)
    requires WellShaped(m)
    requires px == ProfileX(m) && py == ProfileY(m) && pz == ProfileZ(m)
    ensures Empty(m) <==> Span(px).None?
    ensures Empty(m) <==> Span(py).None?
    ensures Empty(m) <==> Span(pz).None?
  {
    EmptyIffProfileFalse(m, px);
    EmptyIffProfileFalse(m, py);
    EmptyIffProfileFalse(m, pz);
  }
}
