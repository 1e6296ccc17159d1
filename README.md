# Keypoint warping of the LoFTR evaluation harness, in Dafny

This project models the keypoint-warping utilities of `src/loftr/utils/geometry.py` and proves properties about them. The harness uses them to find where a keypoint of image 0 lands in image 1.

- `warp_kpts` is the rigid warp. It rounds each keypoint and samples depth0 at that pixel. It then unprojects the unrounded keypoint with that depth through K0⁻¹ and applies the relative pose `[R | t]`. It projects through K1, dividing by the depth plus 1e-4. A point is covisible when it lies strictly inside image 1. The lookup indices of non-covisible points are clamped in place to (0, 0), and depth1 is sampled there. The depth consistency test is `|(s - z) / s| < 0.2`. The validity mask is the AND of the nonzero-depth, covisible and consistent masks.
- `make_homog`, `normalize`, `warp_kpts_ptb` and `warp_kpts_ptb_inv` are the homography path. It rounds the keypoints of the first image pair and appends a homogeneous 1. It multiplies by the first homography, or by its inverse. It divides every point by its own last coordinate in place, then drops that coordinate.

Modules:

- `Numeric` models scalar arithmetic.
  - `Ext` is a float that may be non-finite. IEEE inf and NaN are one value here, because every test the code builds from them is false: the four-sided covisibility conjunction and the `< 0.2` bound on the relative depth error.
  - `Div` is division; a zero divisor gives a non-finite result.
  - `Round` is `torch.round`, rounding half to even.
  - `Trunc` rounds toward zero, and `ToLong` is `.long()`.
- `LinAlg` holds 3-vectors and 3×3 matrices, their products, and the inverse relation `IsInverse`.
- `Keypoints` holds keypoints, integer pixels, warped positions, and `LongPixel` (`round().long()`).
- `Tensors` reads a 2-D array back as a value.
- `RigidWarp` models `warp_kpts`.
  - The pure stages are functions, and `Warp` specifies the whole result.
  - The in-place clamp is the array method `ClampToSentinel`.
  - `WarpKpts` runs the stages as the source does and is proved equal to `Warp`.
- `Homography` models the homography path.
  - `normalize` is the array method `Normalize`, specified by `NormalizeRow`.
  - Both warps run `WarpFirst`, which is proved equal to the specification `WarpHomography`.

Behaviour of the code that is easy to misread, which the model follows:

- `warp_kpts` raises on an empty batch: `torch.stack` of an empty list fails at lines 24-26. `RigidWarp.WellFormed` therefore requires at least one image pair, and `RigidWarp.Slice` a non-empty slice.
- depth1 is sampled at the *truncated* warped coordinates (`.long()`, line 45), not the rounded ones.
- The depth0 lookup at line 25 has no bounds guard. The model requires in-bounds indices instead of clamping them.
- The homography warps use only batch element 0 of `kpts0` and `homo` and return a batch of one.
- `warp_kpts_ptb_inv` rounds its input again. So the round trip through both warps gives back the *rounded* keypoints, and only when every forward-warped point is an integer pixel. It does not give back the original points up to tolerance.

## Model

| member | source | states |
|---|---|---|
| `Numeric.Round` | src/loftr/utils/geometry.py:21 | `round()` gives an integer within 0.5 of its input; a tie goes to the even neighbour |
| `Numeric.ToLong` | src/loftr/utils/geometry.py:45 | `.long()` always yields an int64, and truncates toward zero when the value is finite and fits |
| `Numeric.ToLongStrictlyInside` | src/loftr/utils/geometry.py:43-45 | a value strictly between 0 and an int64 bound converts to an integer in [0, bound - 1] |
| `Numeric.Div` | src/loftr/utils/geometry.py:39 | a float quotient is finite exactly when both operands are finite and the divisor is nonzero |
| `Keypoints.LongPixel` | src/loftr/utils/geometry.py:21 | `round().long()` of a keypoint is an int64 pixel; it equals the rounded coordinates whenever they fit in an int64 |
| `Keypoints.LongPixelOfIntegers` | src/loftr/utils/geometry.py:84 | re-rounding a keypoint that already has int64 integer coordinates leaves it unchanged |
| `LinAlg.ProductsGiveInverse` | src/loftr/utils/geometry.py:31 | a matrix whose products with `inv` in both orders are the identity has `inv` as its inverse on every vector |
| `RigidWarp.LookupIndex` | src/loftr/utils/geometry.py:42-46 | the depth1 lookup index is always inside the h1 × w1 grid; a covisible point gets its coordinates truncated toward zero, which lie in [0, w1-2] × [0, h1-2]; any other point gets exactly (0, 0) |
| `RigidWarp.ClampToSentinel` | src/loftr/utils/geometry.py:46 | the in-place masked assignment resets exactly the non-covisible entries to (0, 0) and keeps every covisible entry |
| `RigidWarp.LookupIndices` | src/loftr/utils/geometry.py:42-46 | the covisible mask and the clamped `.long()` indices of a batch are, entry by entry, the covisibility and lookup index of each warped point |
| `RigidWarp.WarpKpts` | src/loftr/utils/geometry.py:5-54 | the staged batch computation returns exactly the keypoint-by-keypoint specification `Warp`: one mask row and one warped row of L entries per image pair |
| `RigidWarp.ZeroDepthNeverValid` | src/loftr/utils/geometry.py:27 | a keypoint whose depth0 sample is exactly 0 is never valid, whatever the pose, intrinsics and depth1 |
| `RigidWarp.CovisibleStrict` | src/loftr/utils/geometry.py:43-44 | covisible iff finite with `0 < x < w-1` and `0 < y < h-1`; a point on column 0 or w-1, or on row 0 or h-1, is not covisible |
| `RigidWarp.ConsistentIff` | src/loftr/utils/geometry.py:51 | the float test `abs((s - z) / s) < 0.2` holds iff `s != 0` and `abs(s - z) < 0.2 abs(s)`; a zero depth1 sample is never consistent |
| `RigidWarp.ConsistentBand` | src/loftr/utils/geometry.py:51 | for a positive depth1 sample s, consistent iff the computed depth lies strictly between 0.8 s and 1.2 s |
| `RigidWarp.ValidExactly` | src/loftr/utils/geometry.py:42-52 | valid iff the depth0 sample is nonzero, the warped point is finite and strictly inside depth1, and the depth1 sample at its truncated coordinates is nonzero and within 20% of the computed depth |
| `RigidWarp.WarpedFormula` | src/loftr/utils/geometry.py:30-39 | every warped point is `(u/(w+1e-4), v/(w+1e-4))` with `(u,v,w) = K1 (R K0⁻¹ (d (x,y,1)) + t)`, using the unrounded keypoint and the depth0 sample at its rounded pixel |
| `RigidWarp.WarpedIgnoresDepth1` | src/loftr/utils/geometry.py:54 | the returned warped points do not depend on depth1; they are returned for every keypoint, valid or not |
| `RigidWarp.IdentityPoseWarp` | src/loftr/utils/geometry.py:30-39 | with the identity pose and K1 = K0, a keypoint with depth d lands on `(x d/(d+1e-4), y d/(d+1e-4))`, so the epsilon is the only displacement |
| `RigidWarp.SliceIndependence` | src/loftr/utils/geometry.py:24-26 | warping a non-empty contiguous slice of the image pairs gives that slice of the batch's masks and warped points |
| `RigidWarp.ConcatIndependence` | src/loftr/utils/geometry.py:48-50 | warping two batches together gives their two results one after the other |
| `Homography.MakeHomog` | src/loftr/utils/geometry.py:57-59 | the input rows are kept unchanged and one row of ones is appended; every column becomes its point's homogeneous coordinates |
| `Homography.Apply` | src/loftr/utils/geometry.py:73 | `np.dot(homo, m)` applies the homography to every column of m |
| `Homography.NormalizeRow` | src/loftr/utils/geometry.py:63-64 | a row with a finite nonzero last entry ends in 1 after normalization; a row ending in 0 or NaN becomes non-finite throughout (a row ending in ±inf is modelled the same way; see Left out) |
| `Homography.Normalize` | src/loftr/utils/geometry.py:61-65 | in place, every row of the array becomes its normalization, dividing by that row's original last entry |
| `Homography.NormalizeRowIdempotent` | src/loftr/utils/geometry.py:63-64 | normalizing a row twice gives the same row as normalizing it once |
| `Homography.NormalizeRowScale` | src/loftr/utils/geometry.py:63-64 | a row and any nonzero multiple of it normalize to the same row |
| `Homography.WarpHomography` | src/loftr/utils/geometry.py:69-76 | point j is `(h0·p / h2·p, h1·p / h2·p)` with `p = (round(x_j), round(y_j), 1)` and h0, h1, h2 the rows of H |
| `Homography.WarpFirst` | src/loftr/utils/geometry.py:69-76 | rounding, `make_homog`, the product, `normalize` and the column deletion together compute `WarpHomography` of the keypoints |
| `Homography.WarpKptsPtb` | src/loftr/utils/geometry.py:68-80 | the result is a batch of one: the keypoints of pair 0 warped by homography 0 |
| `Homography.WarpKptsPtbInv` | src/loftr/utils/geometry.py:83-96 | the same as `warp_kpts_ptb` with homography 0 replaced by its inverse |
| `Homography.IdentityHomography` | src/loftr/utils/geometry.py:69-76 | the identity homography maps every keypoint onto its own rounded pixel |
| `Homography.HomographyRoundTrip` | src/loftr/utils/geometry.py:83-91 | if the forward warp of a keypoint is an int64 integer pixel, the inverse warp of that pixel is the keypoint's rounded pixel |
| `Homography.WarpRoundTrip` | src/loftr/utils/geometry.py:83-92 | when every forward-warped point is an integer pixel, the inverse warp of the forward warp returns the rounded keypoints |

## Left out

- Floating-point rounding is not modelled: arithmetic is over reals, for float32 as well as float64, and this includes the effect of the 1e-4 epsilon. IEEE inf and NaN are collapsed into one non-finite value. A single comparison such as `+inf > 0` is true, but every test the code builds from them (the covisibility conjunction at lines 43-44 and the `< 0.2` bound at line 51) is false for each of them.
- Numeric.Div: division by a non-finite value gives a non-finite result. IEEE gives 0 for a finite value divided by an infinity. No path from `warp_kpts`, `warp_kpts_ptb` or `warp_kpts_ptb_inv` divides by a non-finite value, so this never arises there.
- Homography.NormalizeRow: a row ending in ±inf is modelled as non-finite throughout, while numpy's `row /= row[-1]` gives ±0 for its finite entries (and NaN for the last). `warp_kpts_ptb` and `warp_kpts_ptb_inv` only normalize finite rows, so their results are unaffected.
- `K0.inverse()` and `np.linalg.inv` are not computed. The inverse is an input with the precondition `IsInverse`. A singular matrix, on which torch and numpy raise, is therefore excluded.
- Negative-index wrap-around of the depth0 lookup (line 25) is not modelled. In-bounds rounded keypoints are a precondition of `RigidWarp.WellFormed`.
- `RigidWarp.WellFormed` also requires a non-empty depth1 (h1, w1 ≥ 1) whenever there is a keypoint. An empty depth1 makes torch raise even for the (0, 0) sentinel. It also bounds h1 and w1 by the int64 range of tensor sizes.
- `.long()` of a non-finite or out-of-range float has no defined result in C++. `Numeric.ToLong` returns INT64_MIN there, as x86 conversions do. In `warp_kpts` such values are only in entries that are then clamped, so the choice is never observed. In the homography path it affects only keypoints beyond ±2^63.
- Conversion of int64 pixels to float64 in `make_homog` is taken as exact. That fails only beyond 2^53.
- Homography.Normalize requires each row to be non-empty when there are rows. `row[-1]` raises on an empty row.
- Homography.WarpKptsPtb and Homography.WarpKptsPtbInv require at least one image pair. `kpts[0]` and `homo[0]` raise on an empty batch.
- Device and tensor plumbing is not modelled: `.cpu()`, `.numpy()`, `torch.from_numpy(...).cuda()`, `@torch.no_grad()` and dtype changes. Transposes and reshapes are modelled only through the shapes they produce.
- `test_ptb.py` is not part of this model. It is command-line, configuration, logging, distributed-setup and trainer glue around modules not shown.
