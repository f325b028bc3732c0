# nipy `coord_tools`: component thresholding and world-space bounds

This project models the geometric core of `nipy/neurospin/viz/coord_tools.py`. It covers four routines.

- `threshold_connect_components` zeroes the connected components of a map that hold fewer voxels than a threshold.
  It works either on a copy or on the input array in place.
- `coord_transform` maps x, y, z coordinate arrays through a 4x4 homogeneous affine.
- `get_bounds` takes the eight corners of an array's index box `[0, adim] × [0, bdim] × [0, cdim]` through an affine.
  It returns the per-axis minimum and maximum of their images.
- `get_mask_bounds` gives the world-space bounds of a boolean mask.
  It scales the mask's bounding slices (from `ndimage.find_objects`) linearly into the extents `get_bounds` gives for the whole array.

The modules follow that structure:

- `results.dfy` holds `Option`, `Result` and the two error cases. `ShapeMismatch` stands for coordinate arrays that cannot be stacked; `NoObject` stands for a mask with no true voxel.
- `affines.dfy` holds points, rows and affines, the matrix product and `coord_transform`.
- `bounds.dfy` holds intervals and extents, the minimum and maximum over a collection of points, and `get_bounds`.
- `masks.dfy` holds boolean 3-D masks and their bounding slices. This is the part of `ndimage.find_objects` that `get_mask_bounds` relies on.
- `mask_bounds.dfy` holds `get_mask_bounds`, the corrected bounds, and the inputs that separate them.
- `components.dfy` holds `threshold_connect_components`. It is a method over an `array<real>` that is either copied or changed in place, and it is proved against the specification function `Thresholded`.

Numbers are mathematical reals: the model has no floating-point rounding.
The map given to `threshold_connect_components` is flattened to one dimension, because its only use of the array's shape is through the labels.
The component labels are an input, one per voxel, as `ndimage.label` would compute them.

## Model

| member | source | states |
|---|---|---|
| Affines.CoordTransform | nipy/neurospin/viz/coord_tools.py:75-80 | Fails with `ShapeMismatch` exactly when the three arrays differ in length; otherwise returns three arrays as long as the input, and point i of the result is the affine applied to (x[i], y[i], z[i], 1), first three rows |
| Affines.Apply | nipy/neurospin/viz/coord_tools.py:79 | Definition: the first three entries of A·(x, y, z, 1) for one point, which is one column of `np.dot(affine, coords)` with the fourth row dropped |
| Affines.CoordTransformIdentity | nipy/neurospin/viz/coord_tools.py:75-80 | The identity affine returns the input coordinates unchanged |
| Affines.ApplyMul | nipy/neurospin/viz/coord_tools.py:79 | Mapping by A and then by B equals mapping once by the matrix product B·A (A homogeneous) |
| Affines.CoordTransformMul | nipy/neurospin/viz/coord_tools.py:75-80 | Transforming by A and then by B equals transforming once by B·A (A homogeneous: bottom row (0, 0, 0, 1)) |
| Bounds.MinOf | nipy/neurospin/viz/coord_tools.py:173 | The result is at most the coordinate of every point and equals the coordinate of some point |
| Bounds.MaxOf | nipy/neurospin/viz/coord_tools.py:173 | The result is at least the coordinate of every point and equals the coordinate of some point |
| Bounds.ExtentsOf | nipy/neurospin/viz/coord_tools.py:173 | Every point lies in the extents, and each of the six bounds is attained by some point |
| Bounds.Corners | nipy/neurospin/viz/coord_tools.py:164-171 | Definition: the eight corners of a box, in the order the source lists them (0 for the low end, the dimension for the high end) |
| Bounds.Image | nipy/neurospin/viz/coord_tools.py:172 | Definition: one image per corner, in order, as the product `np.dot(affine, box)[:3]` gives column by column |
| Bounds.BoxExtents | nipy/neurospin/viz/coord_tools.py:164-173 | Definition: the extents of the corners' images, `zip(box.min(axis=-1), box.max(axis=-1))` after the product |
| Bounds.GetBounds | nipy/neurospin/viz/coord_tools.py:157-174 | min <= max on every axis; all eight transformed corners lie within the result; each of the six bounds is reached by a transformed corner |
| Bounds.BoxExtentsCoverBox | nipy/neurospin/viz/coord_tools.py:164-173 | The extents of the eight transformed corners hold the image of every point of the box, not only of the corners |
| Bounds.GetBoundsCoverArray | nipy/neurospin/viz/coord_tools.py:157-174 | Every point of the index box [0, adim] × [0, bdim] × [0, cdim] maps inside `get_bounds` |
| Bounds.GetBoundsIdentity | nipy/neurospin/viz/coord_tools.py:157-174 | The identity affine gives (0, adim), (0, bdim), (0, cdim) |
| Bounds.ScaleShiftBoxExtents | nipy/neurospin/viz/coord_tools.py:164-173 | Under a diagonal affine with non-negative scales, the extents of a box run from the image of its low corner to the image of its high corner |
| Bounds.GetBoundsScaleShift | nipy/neurospin/viz/coord_tools.py:157-174 | Under such an affine, `get_bounds` is (t, s·dim + t) on each axis |
| Masks.ProfileX | nipy/neurospin/viz/coord_tools.py:188 | Definition: the mask projected onto the first axis, entry i true exactly when plane i holds a true voxel (ProfileY and ProfileZ likewise); its use is in Span and FindObject |
| Masks.Span | nipy/neurospin/viz/coord_tools.py:188 | None exactly when no entry is true; otherwise a non-empty slice within the sequence whose first and last entries are true and which holds every true entry |
| Masks.FindObject | nipy/neurospin/viz/coord_tools.py:188 | None exactly when the mask has no true voxel; otherwise the tight box: it holds every true voxel, fits in the shape, and each of its six faces touches a true voxel |
| MaskBounds.Share | nipy/neurospin/viz/coord_tools.py:190-195 | Definition: the term `k * (max - min) / width` of one end of the rescaled slice |
| MaskBounds.Rescale | nipy/neurospin/viz/coord_tools.py:190-195 | Definition: one axis of the rescaling, (min + start·(max − min)/width, min + stop·(max − min)/width); its properties are RescaleWithin and RescaleFull |
| MaskBounds.RescaleWithin | nipy/neurospin/viz/coord_tools.py:190-195 | A slice of an axis, rescaled into an ordered world interval, is ordered and lies inside that interval |
| MaskBounds.RescaleFull | nipy/neurospin/viz/coord_tools.py:190-195 | The slice covering the whole axis rescales to the interval itself |
| MaskBounds.RescaleBox | nipy/neurospin/viz/coord_tools.py:189-195 | Each axis rescaled into ordered extents lies within them |
| MaskBounds.GetMaskBounds | nipy/neurospin/viz/coord_tools.py:177-197 | Fails with `NoObject` exactly when the mask is all false, where `find_objects(mask)[0]` raises; otherwise the result lies within `get_bounds` of the mask's shape |
| MaskBounds.WholeBoxFound | nipy/neurospin/viz/coord_tools.py:188 | A mask whose first and last voxels are true has bounding slices spanning the whole array |
| MaskBounds.RescaleBoxFull | nipy/neurospin/viz/coord_tools.py:189-195 | Slices spanning the whole array rescale to the extents unchanged |
| MaskBounds.GetMaskBoundsFull | nipy/neurospin/viz/coord_tools.py:187-197 | For every mask whose bounding slices span the whole array, `get_mask_bounds` gives the same extents as `get_bounds` |
| MaskBounds.GetMaskBoundsCorners | nipy/neurospin/viz/coord_tools.py:187-197 | In particular when the first and the last voxel are true |
| MaskBounds.MaskWorldBounds | nipy/neurospin/viz/coord_tools.py:177-197 | Corrected bounds, the extents of the bounding slices' corners under the affine: fails exactly on an all-false mask, and otherwise lies within `get_bounds` for every affine; coverage and tightness are MaskWorldBoundsCoverVoxels and MaskWorldBoundsTight |
| MaskBounds.MaskWorldBoundsCoverVoxels | nipy/neurospin/viz/coord_tools.py:177-197 | The corrected bounds hold the world position of every point of every true voxel, for every affine |
| MaskBounds.MaskWorldBoundsTight | nipy/neurospin/viz/coord_tools.py:177-197 | Under an axis-aligned affine (each world coordinate reads one index axis: diagonal of any signs, or diagonal-permuted, line 185), each of the six corrected bounds is the world coordinate of a point of some true voxel; with the row above, each bound is the least or greatest such coordinate |
| MaskBounds.RescaleScaled | nipy/neurospin/viz/coord_tools.py:190-195 | Rescaling a slice into the world interval of a scaled and shifted axis gives the images of the slice's own ends |
| MaskBounds.GetMaskBoundsScaleShift | nipy/neurospin/viz/coord_tools.py:185-197 | For a diagonal affine with non-negative scales, `get_mask_bounds` equals the corrected bounds on every mask, both failing with `NoObject` on an all-false one |
| MaskBounds.GetMaskBoundsScaleShiftTight | nipy/neurospin/viz/coord_tools.py:185-197 | On those affines `get_mask_bounds` as written is tight too: each of its six bounds is reached by a point of a true voxel |
| MaskBounds.FirstOfTwoMaskIs | nipy/neurospin/viz/coord_tools.py:188 | The 2 x 1 x 1 mask [true, false] has its only true voxel first |
| MaskBounds.FirstOfTwoBox | nipy/neurospin/viz/coord_tools.py:188 | The bounding slices of such a mask are [0, 1) on every axis |
| MaskBounds.FirstOfTwoMaskBounds | nipy/neurospin/viz/coord_tools.py:187-197 | For such a mask, `get_mask_bounds` rescales the first-voxel slices into `get_bounds`, and the corrected bounds are the image of the unit cube |
| MaskBounds.FirstVoxelRescaled | nipy/neurospin/viz/coord_tools.py:189-195 | Slices [0, 1) of a 2 x 1 x 1 array take the first half of the x interval and the whole y and z intervals |
| MaskBounds.FlipXBoxExtents | nipy/neurospin/viz/coord_tools.py:164-173 | Mirroring the first axis mirrors the box's first interval and keeps the others |
| MaskBounds.SwapXYBoxExtents | nipy/neurospin/viz/coord_tools.py:164-173 | Exchanging the first two axes exchanges the box's first two intervals |
| MaskBounds.FlipXTwoBounds | nipy/neurospin/viz/coord_tools.py:157-174 | `get_bounds` of a 2 x 1 x 1 array under the mirror is (-2, 0), (0, 1), (0, 1) |
| MaskBounds.SwapXYTwoBounds | nipy/neurospin/viz/coord_tools.py:157-174 | `get_bounds` of a 2 x 1 x 1 array with the first two axes exchanged is (0, 1), (0, 2), (0, 1) |
| MaskBounds.FlippedAxisMaskBounds | nipy/neurospin/viz/coord_tools.py:187-195 | Under the mirror, `get_mask_bounds` of the [true, false] mask is (-2, -1) on x, the world range of the false voxel |
| MaskBounds.FlippedAxisWorldBounds | nipy/neurospin/viz/coord_tools.py:177-197 | Under the mirror, the corrected bounds of that mask are (-1, 0) on x |
| MaskBounds.FlippedAxisCounterexample | nipy/neurospin/viz/coord_tools.py:185-197 | The centre of the true voxel maps outside `get_mask_bounds` under the mirror, and inside the corrected bounds |
| MaskBounds.SwappedAxesMaskBounds | nipy/neurospin/viz/coord_tools.py:187-195 | With the first two axes exchanged, `get_mask_bounds` of the [true, false] mask is (0, 0.5), (0, 2), (0, 1) |
| MaskBounds.SwappedAxesWorldBounds | nipy/neurospin/viz/coord_tools.py:177-197 | With the first two axes exchanged, the corrected bounds of that mask are the unit cube |
| MaskBounds.SwappedAxesCounterexample | nipy/neurospin/viz/coord_tools.py:185-197 | A point of the true voxel maps outside `get_mask_bounds` with the first two axes exchanged, and inside the corrected bounds |
| Components.Count | nipy/neurospin/viz/coord_tools.py:36-37 | A label's voxel count is at most the number of voxels |
| Components.CountMultiplicity | nipy/neurospin/viz/coord_tools.py:36-37 | A label's voxel count is its multiplicity in the multiset of labels |
| Components.CountPositive | nipy/neurospin/viz/coord_tools.py:36-37 | Every label that occurs has a count of at least one |
| Components.Thresholded | nipy/neurospin/viz/coord_tools.py:40-44 | Specification of the loop: a voxel reads 0 when its label l satisfies 1 <= l < top and l's count is below the threshold, and keeps its value otherwise; the result has as many voxels as the input |
| Components.ThresholdedVoxels | nipy/neurospin/viz/coord_tools.py:40-44 | Values change only to 0; label 0 is unchanged; labels from the first one not examined on are unchanged; a component at or above the threshold is kept; an examined component below it is zeroed |
| Components.ThresholdedIdempotent | nipy/neurospin/viz/coord_tools.py:40-44 | Thresholding the result again changes nothing |
| Components.ThresholdAtMostOneKeepsAll | nipy/neurospin/viz/coord_tools.py:40-44 | A threshold of at most 1 returns the map unchanged |
| Components.ThresholdAboveSizeDropsAll | nipy/neurospin/viz/coord_tools.py:36-44 | A threshold above the number of voxels zeroes every examined component |
| Components.ThresholdedStep | nipy/neurospin/viz/coord_tools.py:42-44 | Examining one more label zeroes exactly that label's voxels, when its weight is below the threshold |
| Components.ZeroSmallComponents | nipy/neurospin/viz/coord_tools.py:40-44 | The loop skips index 0 and leaves the array equal to `Thresholded` of its old contents, for labels 1 .. len(weights) - 1 |
| Components.ThresholdConnectComponents | nipy/neurospin/viz/coord_tools.py:21-45 | With `copy`, the result is a fresh array and the input is untouched; without it, the input array itself is returned. Either way the result is `Thresholded` of the old input over labels 1 .. nLabels - 1 |
| Components.LastLabelKept | nipy/neurospin/viz/coord_tools.py:36-44 | As written, voxels labelled nLabels keep their values whatever the size of their component |
| Components.LastLabelCounterexample | nipy/neurospin/viz/coord_tools.py:36-44 | Data [5.0] with label [1], one label and threshold 2: as written the voxel stays 5.0; examining every label zeroes it |
| Components.ThresholdConnectComponentsFixed | nipy/neurospin/viz/coord_tools.py:21-45 | Corrected version with weights over labels 0 .. nLabels. Same copy and in-place behaviour; the result is `Thresholded` over labels 1 .. nLabels |
| Components.FixedDropsEverySmall | nipy/neurospin/viz/coord_tools.py:21-45 | With labels in 0 .. nLabels, the corrected version zeroes every component below the threshold and keeps every other voxel |

## Left out

- `find_activation` and `find_cut_coords` are left out. They are statistical heuristics built on library calls (empirical-null thresholds, percentiles, largest connected component, centre of mass) and carry no geometry of their own.
- `ndimage.label` is not modelled. Its labels are an input to `ThresholdConnectComponents`.
  - The model does not require the labels to describe connected components.
  - It does not require label 0 to mark exactly the zero voxels.
  - The properties hold for any labelling.
- `ndimage.find_objects` is modelled only for a boolean mask and its first object, the only use `get_mask_bounds` makes of it.
- Floating-point rounding is not modelled: all arithmetic is exact, over reals.
- CoordTransform: the model takes three flat coordinate sequences.
  - Scalar arguments, the `atleast_1d` promotion and the final `squeeze` are not modelled.
  - Affines of a shape other than 4x4 are not modelled: the `Affine` type is always 4x4.
- ThresholdConnectComponents: the map is flat and holds reals, so the array's dimensionality and integer dtypes are not modelled.
- Shapes and masks are three-dimensional by type. Arrays of any other rank, for which `adim, bdim, cdim = shape` raises a ValueError (nipy/neurospin/viz/coord_tools.py:162, also reached from `get_mask_bounds` at line 187), are not modelled.
- GetMaskBounds: the source returns the flat tuple `(xmin, xmax, ymin, ymax, zmin, zmax)`, while `get_bounds` returns a list of (min, max) pairs. The model returns `Extents` for both. So GetMaskBoundsFull's equality holds up to that packing.
- ThresholdConnectComponents: `copy` defaults to True in the source; the model has no default arguments, so every call names it.
- MaskWorldBoundsTight: tightness is proved for axis-aligned affines only. Under a general affine (a rotation, say) the corners of the bounding box can lie outside every true voxel, for instance with an L-shaped mask, and then the corners' extents are wider than the voxels'. The corrected bounds still cover every true voxel under every affine.
- Test code and examples in the repository (`test_resample.py`, the Gaussian mixture example) are not part of this model.

## Findings

| source | as written | input that shows it | evidently intended | confidence | as-written member | corrected member |
|---|---|---|---|---|---|---|
| nipy/neurospin/viz/coord_tools.py:36-44 | The weights are computed for `range(n_labels)`, so labels 0 .. n_labels - 1 are examined. `ndimage.label` numbers the components 1 .. n_labels, so the last component is never thresholded | data [5.0], labels [1], n_labels 1, threshold 2: the one-voxel component is below the threshold but stays 5.0 | every component 1 .. n_labels below the threshold is zeroed (`range(n_labels + 1)`) | high; not executed | Components.LastLabelCounterexample | Components.ThresholdConnectComponentsFixed |
| nipy/neurospin/viz/coord_tools.py:185-195 | The docstring allows diagonal affines, but the slice [start, stop) is rescaled from the low end of the world interval. Under a negative scale, index 0 maps to the high end | 2 x 1 x 1 mask [true, false] with the first axis mirrored: the result is x in [-2, -1], but the true voxel occupies [-1, 0] | the world extents of the bounding slices' corners | high; not executed | MaskBounds.FlippedAxisCounterexample | MaskBounds.MaskWorldBounds |
| nipy/neurospin/viz/coord_tools.py:185-195 | The docstring allows diagonal-permuted affines, but each index slice is rescaled into the world interval of the same position. A permutation moves an index axis to another world axis | 2 x 1 x 1 mask [true, false] with the first two axes exchanged: the result is x in [0, 0.5], but the true voxel occupies x in [0, 1] | the world extents of the bounding slices' corners | high; not executed | MaskBounds.SwappedAxesCounterexample | MaskBounds.MaskWorldBounds |
