# Axis-aligned box utilities of det3d, modelled in Dafny

This project models the discrete and structural part of
`det3d/core/bbox/box_np_ops.py`. That module holds the numpy/numba box
utilities of the det3d 3-D detection toolkit. The parts modelled are:

- relative box corners: `corners_nd`, `corners_2d_jit`, `corners_3d_jit`;
- standup (axis-aligned bounding) boxes of corner sets:
  `corner_to_standup_nd`, `corner_to_standup_nd_jit`;
- the six surfaces of a 3-D box: `corner_to_surfaces_3d`,
  `corner_to_surfaces_3d_jit`;
- min/max, centre/dims and corner forms of 2-D boxes:
  - `center_to_corner_box2d` without angles;
  - `minmax_to_corner_2d` and `minmax_to_corner_2d_v2`;
  - `minmax_to_center_2d`, `center_to_minmax_2d_0_5` and `center_to_minmax_2d`;
- intersection over union of axis-aligned boxes: `iou_jit`, `iou_3d_jit`,
  `iou_nd_jit`;
- the summed-area-table lookup `image_box_region_area`;
- the colour-copy kernel `_add_rgb_to_points_kernel`;
- the in-place centre shift `change_box3d_center_`.

How the model is written:

- Numbers are `real`.
- Read-only numpy inputs are sequences.
- Arrays the numba code allocates and fills are `array2`/`array3`, returned by
  methods whose loops follow the source loop for loop.
- Arrays updated in place are `array2` parameters under `modifies`.
- Each method is proved against a specification function. The properties the
  code relies on are proved about those functions:
  - round trips between box forms;
  - IoU lies in [0, 1], is symmetric, and is 1 for a box with itself;
  - the summed-area identity;
  - centre shifts compose and undo each other;
  - the colour copy is idempotent.

Python exceptions become `Option` results:

- `image_box_region_area` raises IndexError on an index off the table.
  `ImageRegion.ImageBoxRegionArea` returns `None` exactly then.
- The numba IoU kernels run with Python's error model, so a zero union would
  raise ZeroDivisionError. `BoxIou.IouOf` returns `None` exactly when the
  union is zero. `BoxIou.IouNd` proves this never happens on the path
  that divides. The kernel methods therefore return plain arrays.

Modules:

| file | module | models |
|---|---|---|
| common.dfy | Common | optional results, Python `min`/`max`, shapes, `reshape`, fancy indexing, rows of a 2-D array |
| box_corners.dfy | BoxCorners | `corners_nd`, `corners_2d_jit`, `corners_3d_jit` |
| box_standup.dfy | BoxStandup | `corner_to_standup_nd`, `corner_to_standup_nd_jit` |
| box_surfaces.dfy | BoxSurfaces | `corner_to_surfaces_3d`, `corner_to_surfaces_3d_jit` |
| box_minmax.dfy | BoxMinmax | min/max, centre and corner conversions of 2-D boxes |
| box_iou.dfy | BoxIou | `iou_jit`, `iou_3d_jit`, `iou_nd_jit` |
| image_region.dfy | ImageRegion | `image_box_region_area` |
| point_colour.dfy | PointColour | `_add_rgb_to_points_kernel` |
| box_center.dfy | BoxCenter | `change_box3d_center_` |

## Model

| member | source | states |
|---|---|---|
| Common.Min | det3d/core/bbox/box_np_ops.py:517-518 | Python `min` of two floats is one of them and no larger than either |
| Common.Max | det3d/core/bbox/box_np_ops.py:517-518 | Python `max` of two floats is one of them and no smaller than either |
| Common.Reshape | det3d/core/bbox/box_np_ops.py:100-103 | a C-ordered reshape of a flat list to rows x cols has that shape |
| Common.Select | det3d/core/bbox/box_np_ops.py:80-82 | fancy indexing `t[idx]`: entry i of the result is entry idx[i] of t |
| BoxCorners.UnitCornersExtremes | det3d/core/bbox/box_np_ops.py:70-82 | the unit corner table (unravel_index of 0..2^ndim-1, reordered for 2-D and 3-D) holds only 0s and 1s; corner 0 is all zeros and corner FarCorner (2 in 2-D, 6 in 3-D, 2^ndim-1 otherwise) is all ones |
| BoxCorners.UnravelTable | det3d/core/bbox/box_np_ops.py:69-72 | the unravelled table has 2^ndim rows of ndim columns (ndim >= 1) |
| BoxCorners.UnitCorners | det3d/core/bbox/box_np_ops.py:76-82 | the reordered unit table keeps 2^ndim rows of ndim columns |
| BoxCorners.ScaleTable | det3d/core/bbox/box_np_ops.py:83-84 | scaling a table of T unit corners by each row of dims gives shape [N, T, ndim] |
| BoxCorners.ScaleTableFaces | det3d/core/bbox/box_np_ops.py:83-84 | a unit coordinate 0 becomes -origin*dim and a unit coordinate 1 becomes (1-origin)*dim |
| BoxCorners.CornersNd | det3d/core/bbox/box_np_ops.py:55-85 | `corners_nd` has shape [N, 2^ndim, ndim] |
| BoxCorners.CornersNdFaces | det3d/core/bbox/box_np_ops.py:69-85 | every coordinate d of every corner `corners_nd` builds is -origin[d]*dim or (1-origin[d])*dim; corner 0 is the low corner and FarCorner the high one |
| BoxCorners.UnitCorners2dClockwise | det3d/core/bbox/box_np_ops.py:76-80 | after the [0, 1, 3, 2] reordering the 2-D unit corners are (0,0), (0,1), (1,1), (1,0): clockwise from the minimum |
| BoxCorners.Corners2dJit | det3d/core/bbox/box_np_ops.py:89-94 | `corners_2d_jit` has shape [N, 4, 2] |
| BoxCorners.Corners3dJit | det3d/core/bbox/box_np_ops.py:98-107 | `corners_3d_jit` has shape [N, 8, 3] |
| BoxCorners.Flat3dJitIsUnravelTable | det3d/core/bbox/box_np_ops.py:100-103 | the flat literal of `corners_3d_jit`, reshaped to (8, 3), is exactly the unravel_index table `corners_nd` builds for ndim = 3 |
| BoxCorners.Corners2dJitAgrees | det3d/core/bbox/box_np_ops.py:88-94 | `corners_2d_jit` returns exactly what `corners_nd` returns for 2-D dims and the same origin |
| BoxCorners.Corners3dJitAgrees | det3d/core/bbox/box_np_ops.py:97-107 | `corners_3d_jit` returns exactly what `corners_nd` returns for 3-D dims and the same origin |
| BoxStandup.MinAlong | det3d/core/bbox/box_np_ops.py:117 | `np.min` along one axis of a non-empty corner list is a lower bound of every corner and is attained by one |
| BoxStandup.MaxAlong | det3d/core/bbox/box_np_ops.py:119 | `np.max` along one axis is an upper bound of every corner and is attained by one |
| BoxStandup.CornerToStandupNd | det3d/core/bbox/box_np_ops.py:123-128 | the standup box has shape [N, 2*ndim]; for every axis j, column j is at most and column j+ndim at least every corner's coordinate, and both are attained: the tightest axis-aligned box |
| BoxStandup.CornerToStandupNdJit | det3d/core/bbox/box_np_ops.py:110-120 | the loop version fills an [N, 2*ndim] array equal entry by entry to `corner_to_standup_nd` |
| BoxStandup.StandupOfCornersNd | det3d/core/bbox/box_np_ops.py:123-128 | the standup box of the corners `corners_nd` builds for non-negative dims is [-origin*dims, (1-origin)*dims] |
| BoxSurfaces.CornerIdxesAreSurfaceRows | det3d/core/bbox/box_np_ops.py:686-688 | the flat `corner_idxes` literal of the jit version, reshaped to (6, 4), lists the same surfaces as the array version |
| BoxSurfaces.CornerToSurfaces3d | det3d/core/bbox/box_np_ops.py:650-670 | the result has shape [N, 6, 4, 3], and every surface point is one of the eight corners of its own box |
| BoxSurfaces.CornerToSurfaces3dJit | det3d/core/bbox/box_np_ops.py:673-693 | the triple loop fills an [N, 6, 4] array of corner vectors equal entry by entry to `corner_to_surfaces_3d` |
| BoxSurfaces.FillSurface | det3d/core/bbox/box_np_ops.py:691-692 | the k loop copies the four corners of surface j of box i, so every entry before (i, j+1) holds its listed corner |
| BoxSurfaces.SurfacesListFourCorners | det3d/core/bbox/box_np_ops.py:660-667 | each surface lists four distinct corners among the eight |
| BoxSurfaces.CornerInThreeSurfaces | det3d/core/bbox/box_np_ops.py:660-667 | each of the eight corners belongs to exactly three of the six surfaces |
| BoxSurfaces.SurfacesAreWoundFaces | det3d/core/bbox/box_np_ops.py:650-670 | on the unit box of `corners_nd`, each surface lies in one face and the six surfaces are the six distinct faces. All are wound the same way: at every corner, the cross product of the arriving and the leaving edge is the outward normal, so the reverse product is the inward normal the code comment promises |
| BoxMinmax.MinmaxToCenter2d | det3d/core/bbox/box_np_ops.py:341-346 | the centre is the midpoint of min and max; the dims are max - min |
| BoxMinmax.CenterToMinmax2d05 | det3d/core/bbox/box_np_ops.py:349-350 | the returned box has the given centre as midpoint and the given dims as extents |
| BoxMinmax.CenterToCornerBox2d | det3d/core/bbox/box_np_ops.py:265-285 | without angles the corners have shape [N, 4, 2] |
| BoxMinmax.CenterToCornerBox2dIsCornersNd | det3d/core/bbox/box_np_ops.py:280-285 | each corner is the corner `corners_nd` builds for the dims and origin, moved by the centre of its box |
| BoxMinmax.LowHighRows | det3d/core/bbox/box_np_ops.py:357 | `corners[:, [0, 2]].reshape([-1, 4])` is corner 0 followed by corner 2 |
| BoxMinmax.CenterToMinmax2d | det3d/core/bbox/box_np_ops.py:353-357 | for either branch, the box runs from centre - origin*dims to centre + (1-origin)*dims |
| BoxMinmax.MinmaxToCorner2d | det3d/core/bbox/box_np_ops.py:322-326 | the result has shape [N, 4, 2] (corners of the min corner with the max - min dims, origin 0) |
| BoxMinmax.MinmaxToCorner2dV2 | det3d/core/bbox/box_np_ops.py:329-331 | box [x0, y0, x1, y1] becomes the corner list (x0,y0), (x0,y1), (x1,y1), (x1,y0) |
| BoxMinmax.GatherCorners | det3d/core/bbox/box_np_ops.py:331 | the gather [0, 1, 0, 3, 2, 3, 2, 1] reshaped to (4, 2) is the corner list (x0,y0), (x0,y1), (x1,y1), (x1,y0) |
| BoxMinmax.MinmaxCenterRoundTrip | det3d/core/bbox/box_np_ops.py:341-350 | `center_to_minmax_2d_0_5` of the centre and dims `minmax_to_center_2d` returns gives back the original box |
| BoxMinmax.CenterMinmaxRoundTrip | det3d/core/bbox/box_np_ops.py:341-357 | `minmax_to_center_2d` after `center_to_minmax_2d` with any origin keeps the dims and moves the centre by (0.5 - origin)*dims |
| BoxMinmax.CenterMinmaxRoundTripHalf | det3d/core/bbox/box_np_ops.py:341-357 | with origin 0.5 that round trip gives back exactly the centres and dims |
| BoxMinmax.CenterToMinmaxDispatch | det3d/core/bbox/box_np_ops.py:353-357 | the corner branch evaluated at origin 0.5 gives what the `_0_5` shortcut gives, so the dispatch does not change the result |
| BoxMinmax.MinmaxToCornerV2Agrees | det3d/core/bbox/box_np_ops.py:322-331 | `minmax_to_corner_2d_v2` lists the same corners, in the same order, as `minmax_to_corner_2d` |
| BoxMinmax.MinmaxCornerRow | det3d/core/bbox/box_np_ops.py:322-326 | each row of `minmax_to_corner_2d` is (x0,y0), (x0,y1), (x1,y1), (x1,y0) |
| BoxMinmax.StandupOfMinmaxCorners | det3d/core/bbox/box_np_ops.py:329-331 | for boxes with min <= max, the standup box of the `minmax_to_corner_2d_v2` corners is the original box |
| BoxIou.AddOne | det3d/core/bbox/box_np_ops.py:551-554 | the add1 flag becomes the float 1.0 when set and 0.0 otherwise |
| BoxIou.Side | det3d/core/bbox/box_np_ops.py:618-622 | the overlap length of two boxes along one axis is no longer than either box's extent along it |
| BoxIou.IouOf | det3d/core/bbox/box_np_ops.py:635-636 | the division `inter / ua` is defined exactly when the union va + vb - inter is nonzero |
| BoxIou.IouNdAgrees2d | det3d/core/bbox/box_np_ops.py:591-638 | `iou_nd_jit` with ndim = 2 computes the same entry as `iou_jit` (eps = add) |
| BoxIou.IouNdAgrees3d | det3d/core/bbox/box_np_ops.py:591-638 | `iou_nd_jit` with ndim = 3 computes the same entry as `iou_3d_jit` with the same add |
| BoxIou.SideWithinExtents | det3d/core/bbox/box_np_ops.py:618-622 | an overlap side is no longer than either box's extent on that axis and is symmetric in the two boxes |
| BoxIou.IntersectionWithinVolumes | det3d/core/bbox/box_np_ops.py:631-633 | when every side overlaps, each prefix product of the sides is positive and at most either box's prefix volume |
| BoxIou.IouNd | det3d/core/bbox/box_np_ops.py:615-636 | one `iou_nd_jit` entry is always defined (the division never raises), lies in [0, 1], and is positive exactly when every side overlaps |
| BoxIou.Iou2d | det3d/core/bbox/box_np_ops.py:515-534 | one `iou_jit` entry is always defined, lies in [0, 1], and is positive exactly when iw > 0 and ih > 0 |
| BoxIou.Iou3dOfSidesBounds | det3d/core/bbox/box_np_ops.py:561-587 | with each of iw, ih, il no longer than the matching extent of either box, the nested tests of `iou_3d_jit` give a defined entry in [0, 1] that is positive exactly when all three sides overlap |
| BoxIou.Iou3d | det3d/core/bbox/box_np_ops.py:561-587 | one `iou_3d_jit` entry is always defined, lies in [0, 1], and is positive exactly when iw, ih and il are all positive |
| BoxIou.IouNdSymmetric | det3d/core/bbox/box_np_ops.py:615-636 | the IoU of b with q equals the IoU of q with b |
| BoxIou.IouNdWithSelf | det3d/core/bbox/box_np_ops.py:615-636 | a box with positive extents has IoU exactly 1 with itself |
| BoxIou.IouNdValue | det3d/core/bbox/box_np_ops.py:615-636 | the value of the (always defined) `iou_nd_jit` entry, in [0, 1] |
| BoxIou.Iou2dValue | det3d/core/bbox/box_np_ops.py:515-534 | the value of the (always defined) `iou_jit` entry, in [0, 1] |
| BoxIou.Iou3dValue | det3d/core/bbox/box_np_ops.py:561-587 | the value of the (always defined) `iou_3d_jit` entry, in [0, 1] |
| BoxIou.IouNdValueOverlapping | det3d/core/bbox/box_np_ops.py:627-636 | in the `not invalid` branch the union ua is nonzero and inter/ua is the entry |
| BoxIou.Iou2dValueOverlapping | det3d/core/bbox/box_np_ops.py:527-534 | in the innermost branch of `iou_jit` the union ua is nonzero and iw*ih/ua is the entry |
| BoxIou.Iou3dValueOverlapping | det3d/core/bbox/box_np_ops.py:579-587 | in the innermost branch of `iou_3d_jit` the union ua is nonzero and iw*ih*il/ua is the entry |
| BoxIou.IouMatrixNd | det3d/core/bbox/box_np_ops.py:591-638 | the table of `iou_nd_jit` has shape [N, K] |
| BoxIou.IouMatrix2d | det3d/core/bbox/box_np_ops.py:496-535 | the table of `iou_jit` has shape [N, K] |
| BoxIou.IouMatrix3d | det3d/core/bbox/box_np_ops.py:538-588 | the table of `iou_3d_jit` has shape [N, K] |
| BoxIou.IouMatrixNdTransposes | det3d/core/bbox/box_np_ops.py:591-638 | swapping boxes and query boxes transposes the IoU table |
| BoxIou.IouJit | det3d/core/bbox/box_np_ops.py:496-535 | the loops fill an [N, K] array whose entry (n, k) is the IoU of box n with query box k (0 without overlap) |
| BoxIou.Iou3dJit | det3d/core/bbox/box_np_ops.py:538-588 | the same for 3-D boxes, with add1 as 1.0 or 0.0 |
| BoxIou.BoxArea | det3d/core/bbox/box_np_ops.py:628-630 | the area loop computes the product of the box's extents |
| BoxIou.MeasureSides | det3d/core/bbox/box_np_ops.py:616-626 | the side loop reports invalid exactly when some side does not overlap, and otherwise has recorded every side length |
| BoxIou.SideProduct | det3d/core/bbox/box_np_ops.py:631-633 | the product loop computes the intersection volume |
| BoxIou.IouNdJit | det3d/core/bbox/box_np_ops.py:591-638 | the loops fill an [N, K] array equal entry by entry to the IoU table |
| ImageRegion.PyIndex | det3d/core/bbox/box_np_ops.py:761-764 | an integer index into an axis of size s is valid exactly on [-s, s), and then names a position below s, counting from the end when negative |
| ImageRegion.ImageBoxRegionArea | det3d/core/bbox/box_np_ops.py:742-766 | the result is defined exactly when every box's indices lie on the table, and then has shape [M, N] |
| ImageRegion.RegionEntryIsPixelSum | det3d/core/bbox/box_np_ops.py:743-765 | on an inclusive 2-D cumulative sum, ID - IB - IC + IA for an ordered box [x0, y1, x2, y3] is the sum of the pixels in rows y1+1..y3 and columns x0+1..x2 |
| ImageRegion.RegionEntryAnyOrder | det3d/core/bbox/box_np_ops.py:761-765 | for a box in any orientation, ID - IB - IC + IA is the pixel sum of the rectangle between its sorted indices (first row and column excluded), negated when the box is reversed on exactly one axis |
| ImageRegion.RegionAreaIsPixelSum | det3d/core/bbox/box_np_ops.py:742-766 | every entry of the result is the pixel sum of its box in its image |
| PointColour.Pixel | det3d/core/bbox/box_np_ops.py:424-426 | `floor(p)` names a pixel of an h x w image exactly when the point lies in [0, w) x [0, h); that pixel is the unit square containing the point |
| PointColour.ColourPrefix | det3d/core/bbox/box_np_ops.py:419-428 | after points 0..n-1, each row whose point lies on the image holds its pixel's colour, and every other row is unchanged |
| PointColour.ColourIdempotent | det3d/core/bbox/box_np_ops.py:419-428 | running the kernel again on its own output changes nothing |
| PointColour.ColourForgetsCoveredRows | det3d/core/bbox/box_np_ops.py:419-428 | the result depends on the starting rows only at points off the image |
| PointColour.CopyRow | det3d/core/bbox/box_np_ops.py:427 | `points_rgb[i, :] = v` replaces row i and no other |
| PointColour.AddRgbToPointsKernel | det3d/core/bbox/box_np_ops.py:419-428 | the loop leaves `points_rgb` as ColourPrefix of its old rows over all points |
| BoxCenter.ShiftRow | det3d/core/bbox/box_np_ops.py:803 | a shifted box keeps its size columns and every column after them |
| BoxCenter.Shift | det3d/core/bbox/box_np_ops.py:800-803 | shifting keeps the shape of the box array |
| BoxCenter.ShiftMovesOrigin | det3d/core/bbox/box_np_ops.py:800-803 | a centre at relative position src of the box extent (lo + src*dim) ends at relative position dst (lo + dst*dim) |
| BoxCenter.ShiftCompose | det3d/core/bbox/box_np_ops.py:800-803 | shifting from a to b and then from b to c equals shifting from a to c |
| BoxCenter.ShiftRoundTrip | det3d/core/bbox/box_np_ops.py:800-803 | shifting from src to dst and back restores the boxes |
| BoxCenter.ChangeBox3dCenter | det3d/core/bbox/box_np_ops.py:800-803 | the in-place update leaves the array equal to Shift of its old contents |

## Left out

- Rotations are not modelled: the `angles` argument of `center_to_corner_box2d`, `rotation_2d` and the other rotation helpers. They need trigonometry.
- The camera and projection algebra is not modelled: frustums, lidar/camera transforms, `project_to_image`, `remove_outside_points`, and the `add_rgb_to_points` wrapper. It needs matrix inverses and decompositions.
- The rotated-IoU wrappers are not modelled: `riou_cc`, `rinter_cc`, `points_count_rbbox`, `points_in_rbbox`. They call foreign code.
- The voxel label helpers are not modelled: `assign_label_to_voxel(_v3)` and `get_minimum_bounding_box_bv`.
- The C++ voxel query glue (`voxel_query.cpp`) is not modelled; it only launches a CUDA kernel.
- Floating point is modelled as exact real arithmetic. Rounding, NaN and infinities are not modelled. Under exact arithmetic the IoU union is never zero on the path that divides, so ZeroDivisionError cannot occur in this model.
- Numba mechanics are not modelled: compilation, unchecked out-of-bounds access, and dtype conversions.
- The `print` run when spconv cannot be imported is not modelled.
- Broadcasting is not modelled:
  - the `origin` of the corner functions is a per-axis vector;
  - `center_to_minmax_2d`'s scalar origin is expanded to [origin, origin] before it reaches `center_to_corner_box2d`.
- `...` leading dimensions are modelled as one row dimension (`[N, k]`).
- Widths other than 2 * ndim are not modelled; the model takes exactly 2 * ndim columns. `iou_nd_jit` takes `width // 2` axes and ignores a trailing odd column. `minmax_to_center_2d` and `minmax_to_corner_2d` subtract the first ndim columns from the rest, so an odd width either broadcasts or raises ValueError: at width 3 `minmax_to_center_2d` returns four columns, while `minmax_to_corner_2d` passes a one-column centre on to `centers.reshape([-1, 1, 2])`, which raises ValueError unless N is 0 or 2 (an odd N cannot be reshaped, and for even N >= 4 the (N/2, 1, 2) centres do not broadcast into the (N, 4, 2) corners); at width 5 both raise ValueError.
- BoxCorners.CornersNd: requires ndim >= 1, as do UnravelTable and UnitCorners. For dims with zero columns numpy's `unravel_index` refuses the empty shape and `corners_nd` raises ValueError; the model does not represent that error.
- BoxCenter.ChangeBox3dCenter: requires at least six columns and three-entry src and dst, as do ShiftRow and Shift. The numpy update `box3d[..., :3] += box3d[..., 3:6] * (dst - src)` also accepts width 4, where the single size column broadcasts over all three centre columns; widths 0 to 3 and 5 raise ValueError. Neither case is modelled.
- BoxStandup.CornerToStandupNd: requires at least one corner per box, because numpy's min over an empty axis raises.
- BoxIou.IouNdJit: requires ndim >= 1. With ndim = 0 the numba code reads `side_lengths[0]` of an empty array.
- BoxMinmax.CenterToMinmax2d: requires two columns for origins other than 0.5, because `center_to_corner_box2d` reshapes to pairs.
- PointColour.AddRgbToPointsKernel:
  - does not model the int32 cast of the floored position; coordinates beyond the int32 range are treated as exact integers;
  - requires the image's channel count to equal the width of `points_rgb`, and at least as many colour rows as points;
  - leaves out the commented-out write to the image.
- ImageRegion.ImageBoxRegionArea:
  - takes the table height and width as parameters, so the IndexError condition is stated even when M = 0;
  - takes box indices as integers; numpy refuses float indices;
  - leaves out the unused [N, M] zeros, which are overwritten.
