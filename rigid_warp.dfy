/** warp_kpts: warp the keypoints of image 0 into image 1 through depth,
    intrinsics and a relative pose, and mark which warps can be trusted
    (nonzero source depth, covisible, depth-consistent). */
module RigidWarp {
  import opened Numeric
  import opened LinAlg
  import opened Keypoints
  import opened Tensors

  /** Added to the projected depth before the perspective divide. */
  const DivideEps: real := 0.0001

  /** A relative depth error below this is consistent. */
  const MaxRelDepthError: real := 0.2

  /** A depth map of one image, indexed [row][col]. */
  type Grid = seq<seq<real>>

  /** The relative transform `[R | t]` from camera 0 to camera 1. */
  datatype Pose = Pose(rot: Mat3, t: Vec3)

  predicate IsGrid(g: Grid, h: nat, w: nat)
  {
    |g| == h && forall r :: 0 <= r < h ==> |g[r]| == w
  }

  predicate Indexes(g: Grid, p: Pixel)
  {
    0 <= p.row < |g| && 0 <= p.col < |g[p.row]|
  }

  /** `depth[row, col]`. */
  function Sample(g: Grid, p: Pixel): real
    requires Indexes(g, p)
  {
    g[p.row][p.col]
  }

  /** The batched inputs of warp_kpts, one sequence entry per image pair:
      kpts0 [N, L, 2], depth0 [N, h0, w0], depth1 [N, h1, w1], T_0to1 [N, 3, 4],
      K0 [N, 3, 3] together with its inverse, and K1 [N, 3, 3]. */
  datatype Batch = Batch(
    kpts0: seq<seq<Point2>>,
    depth0: seq<Grid>,
    depth1: seq<Grid>,
    poses: seq<Pose>,
    k0: seq<Mat3>,
    k0Inv: seq<Mat3>,
    k1: seq<Mat3>,
    len: nat, h0: nat, w0: nat, h1: nat, w1: nat)

  /** There is at least one image pair (torch.stack of an empty list raises),
      the shapes agree, the rounded keypoints lie on depth0 and depth1 has a
      pixel (0, 0) whenever some lookup happens. */
  predicate WellFormed(b: Batch)
  {
    var n := |b.kpts0|;
    && n > 0
    && |b.depth0| == n && |b.depth1| == n && |b.poses| == n
    && |b.k0| == n && |b.k0Inv| == n && |b.k1| == n
    && b.h1 <= MaxInt64 && b.w1 <= MaxInt64
    && (b.len > 0 ==> b.h1 > 0 && b.w1 > 0)
    && (forall i :: 0 <= i < n ==>
          && |b.kpts0[i]| == b.len
          && IsGrid(b.depth0[i], b.h0, b.w0)
          && IsGrid(b.depth1[i], b.h1, b.w1))
    && (forall i, j :: 0 <= i < n && 0 <= j < b.len ==>
          Indexes(b.depth0[i], LongPixel(b.kpts0[i][j])))
  }

  /** Every `k0Inv` entry is the inverse of the matching K0 (K0.inverse()). */
  ghost predicate InversesGiven(b: Batch)
    requires |b.k0| == |b.k0Inv|
  {
    forall i {:trigger IsInverse(b.k0[i], b.k0Inv[i])} :: 0 <= i < |b.k0| ==> IsInverse(b.k0[i], b.k0Inv[i])
  }

  /** Unproject: the pixel `(x, y, 1)` scaled by its depth, through K0^-1. */
  function Unproject(k0Inv: Mat3, k: Point2, d: real): Vec3
  {
    MatVec(k0Inv, Vec3(k.x * d, k.y * d, d))
  }

  /** The rigid transform `R @ p + t`. */
  function Transform(pose: Pose, c: Vec3): Vec3
  {
    Add(MatVec(pose.rot, c), pose.t)
  }

  /** Project through K1 and divide by the depth plus 1e-4. */
  function Project(k1: Mat3, c: Vec3): Warped
  {
    var h := MatVec(k1, c);
    Warped(Div(Fin(h.x), Fin(h.z + DivideEps)), Div(Fin(h.y), Fin(h.z + DivideEps)))
  }

  /** Strictly inside image 1, away from its last row and column. */
  predicate Covisible(p: Warped, h: int, w: int)
  {
    Above(p.x, 0.0) && Below(p.x, (w - 1) as real) && Above(p.y, 0.0) && Below(p.y, (h - 1) as real)
  }

  /** The depth1 index of a warped point: its `.long()` coordinates when it is
      covisible, the sentinel (0, 0) otherwise.  Always a pixel of depth1. */
  function LookupIndex(p: Warped, h: nat, w: nat): (q: Pixel)
    requires 0 < h <= MaxInt64 && 0 < w <= MaxInt64
    ensures 0 <= q.col < w && 0 <= q.row < h
    ensures Covisible(p, h, w) ==> q == Pixel(Trunc(p.x.val), Trunc(p.y.val)) && q.col <= w - 2 && q.row <= h - 2
    ensures !Covisible(p, h, w) ==> q == Pixel(0, 0)
  {
    if Covisible(p, h, w) then
      ToLongStrictlyInside(p.x, w - 1);
      ToLongStrictlyInside(p.y, h - 1);
      Pixel(ToLong(p.x), ToLong(p.y))
    else
      Pixel(0, 0)
  }

  /** `|(sampled - computed) / sampled| < 0.2` in floating point: a zero
      `sampled` yields inf or NaN and the comparison fails. */
  predicate Consistent(sampled: real, computed: real)
  {
    Below(Abs(Div(Fin(sampled - computed), Fin(sampled))), MaxRelDepthError)
  }

  /** What the warp computes for one keypoint before it looks at depth1: the
      depth0 sample, the point in camera-1 coordinates and the warped pixel. */
  datatype Projection = Projection(depth: real, cam: Vec3, warped: Warped)

  /** Sample depth0 at the rounded keypoint, unproject the unrounded keypoint
      with that depth, transform and project. */
  function ProjectKeypoint(k: Point2, depth0: Grid, pose: Pose, k0Inv: Mat3, k1: Mat3): Projection
    requires Indexes(depth0, LongPixel(k))
  {
    var d := Sample(depth0, LongPixel(k));
    var cam := Transform(pose, Unproject(k0Inv, k, d));
    Projection(d, cam, Project(k1, cam))
  }

  datatype PointResult = PointResult(valid: bool, warped: Warped)

  /** warp_kpts for a single keypoint of a single image pair. */
  function WarpPoint(k: Point2, depth0: Grid, depth1: Grid, pose: Pose, k0Inv: Mat3, k1: Mat3,
                     h1: nat, w1: nat): PointResult
    requires Indexes(depth0, LongPixel(k))
    requires IsGrid(depth1, h1, w1) && 0 < h1 <= MaxInt64 && 0 < w1 <= MaxInt64
  {
    var pr := ProjectKeypoint(k, depth0, pose, k0Inv, k1);
    var s := Sample(depth1, LookupIndex(pr.warped, h1, w1));
    PointResult(pr.depth != 0.0 && Covisible(pr.warped, h1, w1) && Consistent(s, pr.cam.z), pr.warped)
  }

  function WarpAt(b: Batch, i: nat, j: nat): PointResult
    requires WellFormed(b) && i < |b.kpts0| && j < b.len
  {
    WarpPoint(b.kpts0[i][j], b.depth0[i], b.depth1[i], b.poses[i], b.k0Inv[i], b.k1[i], b.h1, b.w1)
  }

  /** The two outputs of warp_kpts: the validity mask [N, L] and the warped
      keypoints [N, L, 2]. */
  datatype WarpResult = WarpResult(valid: seq<seq<bool>>, warped: seq<seq<Warped>>)

  /** warp_kpts, keypoint by keypoint: the result has one row of L entries per
      image pair. */
  function Warp(b: Batch): (r: WarpResult)
    requires WellFormed(b)
    ensures |r.valid| == |r.warped| == |b.kpts0|
    ensures forall i :: 0 <= i < |b.kpts0| ==> |r.valid[i]| == |r.warped[i]| == b.len
  {
    var n := |b.kpts0|;
    WarpResult(
      seq(n, i requires 0 <= i < n => seq(b.len, j requires 0 <= j < b.len => WarpAt(b, i, j).valid)),
      seq(n, i requires 0 <= i < n => seq(b.len, j requires 0 <= j < b.len => WarpAt(b, i, j).warped)))
  }

  /** The in-place masked assignment `w_kpts0_long[~covisible_mask, :] = 0`. */
  method ClampToSentinel(idx: array2<Pixel>, covisible: seq<seq<bool>>)
    requires |covisible| == idx.Length0
    requires forall i :: 0 <= i < |covisible| ==> |covisible[i]| == idx.Length1
    modifies idx
    ensures forall i, j :: 0 <= i < idx.Length0 && 0 <= j < idx.Length1 ==>
              idx[i, j] == if covisible[i][j] then old(idx[i, j]) else Pixel(0, 0)
  {
    var i := 0;
    while i < idx.Length0
      invariant 0 <= i <= idx.Length0
      invariant forall r, c :: 0 <= r < i && 0 <= c < idx.Length1 ==>
                  idx[r, c] == if covisible[r][c] then old(idx[r, c]) else Pixel(0, 0)
      invariant forall r, c :: i <= r < idx.Length0 && 0 <= c < idx.Length1 ==> idx[r, c] == old(idx[r, c])
    {
      var j := 0;
      while j < idx.Length1
        invariant 0 <= j <= idx.Length1
        invariant forall r, c :: 0 <= r < i && 0 <= c < idx.Length1 ==>
                    idx[r, c] == if covisible[r][c] then old(idx[r, c]) else Pixel(0, 0)
        invariant forall c :: 0 <= c < j ==>
                    idx[i, c] == if covisible[i][c] then old(idx[i, c]) else Pixel(0, 0)
        invariant forall r, c :: i <= r < idx.Length0 && 0 <= c < idx.Length1 && (r > i || c >= j) ==>
                    idx[r, c] == old(idx[r, c])
      {
        if !covisible[i][j] {
          idx[i, j] := Pixel(0, 0);
        }
        j := j + 1;
      }
      i := i + 1;
    }
  }

  /** The covisible mask and the depth1 lookup indices of a batch of warped
      points: their `.long()` coordinates, with the entries of non-covisible
      points then clamped in place to (0, 0). */
  method LookupIndices(warped: seq<seq<Warped>>, len: nat, h: nat, w: nat)
    returns (covisible: seq<seq<bool>>, idx: seq<seq<Pixel>>)
    requires forall i :: 0 <= i < |warped| ==> |warped[i]| == len
    requires h <= MaxInt64 && w <= MaxInt64
    requires |warped| > 0 && len > 0 ==> h > 0 && w > 0
    ensures |covisible| == |idx| == |warped|
    ensures forall i :: 0 <= i < |warped| ==> |covisible[i]| == |idx[i]| == len
    ensures forall i, j :: 0 <= i < |warped| && 0 <= j < len ==>
              covisible[i][j] == Covisible(warped[i][j], h, w) && idx[i][j] == LookupIndex(warped[i][j], h, w)
  {
    var n := |warped|;
    covisible := seq(n, i requires 0 <= i < n => seq(len, j requires 0 <= j < len =>
      Covisible(warped[i][j], h, w)));
    var wLong := new Pixel[n, len]((i, j) requires 0 <= i < n && 0 <= j < len =>
      Pixel(ToLong(warped[i][j].x), ToLong(warped[i][j].y)));
    ClampToSentinel(wLong, covisible);
    idx := Rows(wLong);
  }

  /** The depth0 samples, camera-1 points and warped points of a whole batch,
      image by image. */
  function ProjectBatch(b: Batch): (r: seq<seq<Projection>>)
    requires WellFormed(b)
    ensures |r| == |b.kpts0|
    ensures forall i :: 0 <= i < |b.kpts0| ==> |r[i]| == b.len
  {
    seq(|b.kpts0|, i requires 0 <= i < |b.kpts0| => seq(b.len, j requires 0 <= j < b.len =>
      ProjectKeypoint(b.kpts0[i][j], b.depth0[i], b.poses[i], b.k0Inv[i], b.k1[i])))
  }

  /** `depth[i, idx[:, 1], idx[:, 0]]` for one image. */
  function Gather(g: Grid, idx: seq<Pixel>): (r: seq<real>)
    requires forall j :: 0 <= j < |idx| ==> Indexes(g, idx[j])
    ensures |r| == |idx|
  {
    seq(|idx|, j requires 0 <= j < |idx| => Sample(g, idx[j]))
  }

  /** warp_kpts as the source runs it: whole-batch stages, the in-place clamp
      of the non-covisible lookup indices, then the depth1 lookup. */
  method WarpKpts(b: Batch) returns (valid: seq<seq<bool>>, warped: seq<seq<Warped>>)
    requires WellFormed(b) && InversesGiven(b)
    ensures valid == Warp(b).valid
    ensures warped == Warp(b).warped
  {
    var n, len := |b.kpts0|, b.len;
    // Sample depth0 at the rounded keypoints, unproject, transform and project.
    var proj: seq<seq<Projection>> := ProjectBatch(b);
    warped := seq(n, i requires 0 <= i < n => seq(len, j requires 0 <= j < len => proj[i][j].warped));
    // Covisibility and the clamped lookup indices.
    var covisible, idx := LookupIndices(warped, len, b.h1, b.w1);
    // Sample depth1 there, test depth consistency and combine the three masks.
    var target: seq<seq<real>> := seq(n, i requires 0 <= i < n => Gather(b.depth1[i], idx[i]));
    valid := seq(n, i requires 0 <= i < n => seq(len, j requires 0 <= j < len =>
      proj[i][j].depth != 0.0 && covisible[i][j] && Consistent(target[i][j], proj[i][j].cam.z)));
    forall i | 0 <= i < n
      ensures valid[i] == Warp(b).valid[i] && warped[i] == Warp(b).warped[i]
    {
      assert forall j :: 0 <= j < len ==> valid[i][j] == WarpAt(b, i, j).valid;
    }
  }

  /** A keypoint whose depth0 sample is exactly 0 is never valid, whatever
      the pose, intrinsics and depth1 are. */
  lemma ZeroDepthNeverValid(b: Batch, i: nat, j: nat)
    requires WellFormed(b) && i < |b.kpts0| && j < b.len
    requires Sample(b.depth0[i], LongPixel(b.kpts0[i][j])) == 0.0
    ensures !Warp(b).valid[i][j]
  {
  }

  /** Covisibility is strict on all four sides: a point on column 0 or w - 1,
      or on row 0 or h - 1, is not covisible, and neither is a non-finite one. */
  lemma CovisibleStrict(p: Warped, h: int, w: int)
    ensures Covisible(p, h, w) <==>
              p.x.Fin? && p.y.Fin? && 0.0 < p.x.val < (w - 1) as real && 0.0 < p.y.val < (h - 1) as real
    ensures (p.x == Fin(0.0) || p.x == Fin((w - 1) as real) || p.y == Fin(0.0) || p.y == Fin((h - 1) as real))
              ==> !Covisible(p, h, w)
  {
  }

  /** The floating-point consistency test is the relative-error bound
      `|s - z| < 0.2 |s|`, and a zero sample is never consistent. */
  lemma ConsistentIff(s: real, z: real)
    ensures Consistent(s, z) <==> s != 0.0 && AbsReal(s - z) < MaxRelDepthError * AbsReal(s)
  {
    if s != 0.0 {
      assert Consistent(s, z) <==> AbsReal((s - z) / s) < MaxRelDepthError;
      RelErrBound(s - z, s, MaxRelDepthError);
    } else {
      assert Div(Fin(s - z), Fin(s)) == NonFinite;
    }
  }

  /** A bound on a quotient's magnitude is the bound scaled by the divisor's. */
  lemma RelErrBound(n: real, s: real, c: real)
    requires s != 0.0
    ensures AbsReal(n / s) < c <==> AbsReal(n) < c * AbsReal(s)
  {
    AbsQuotient(n, s);
    ScaleByPositive(AbsReal(n / s), c, AbsReal(s));
  }

  lemma AbsQuotient(n: real, s: real)
    requires s != 0.0
    ensures AbsReal(n / s) * AbsReal(s) == AbsReal(n)
  {
    var q := n / s;
    assert q * s == n;
    if q < 0.0 && s < 0.0 {
      assert AbsReal(q) * AbsReal(s) == q * s;
    } else if q < 0.0 || s < 0.0 {
      assert AbsReal(q) * AbsReal(s) == -(q * s);
    }
  }

  lemma ScaleByPositive(x: real, c: real, a: real)
    requires a > 0.0
    ensures x < c <==> x * a < c * a
  {
    assert x * a - c * a == (x - c) * a;
  }

  /** For a positive depth1 sample s, consistency means the computed depth
      lies strictly between 0.8 s and 1.2 s. */
  lemma ConsistentBand(s: real, z: real)
    requires s > 0.0
    ensures Consistent(s, z) <==> 0.8 * s < z < 1.2 * s
  {
    ConsistentIff(s, z);
  }

  /** The validity of one keypoint spelled out: nonzero depth0 sample, a
      finite warped point strictly inside depth1, and a depth1 sample at its
      truncated coordinates that is nonzero and within 20% of the computed
      depth. */
  lemma ValidExactly(b: Batch, i: nat, j: nat)
    requires WellFormed(b) && i < |b.kpts0| && j < b.len
    ensures var pr := ProjectKeypoint(b.kpts0[i][j], b.depth0[i], b.poses[i], b.k0Inv[i], b.k1[i]);
            var p := pr.warped;
            Warp(b).warped[i][j] == p &&
            (Warp(b).valid[i][j] <==>
              && pr.depth != 0.0
              && p.x.Fin? && p.y.Fin?
              && 0.0 < p.x.val < (b.w1 - 1) as real && 0.0 < p.y.val < (b.h1 - 1) as real
              && var s := b.depth1[i][Trunc(p.y.val)][Trunc(p.x.val)];
                 s != 0.0 && AbsReal(s - pr.cam.z) < MaxRelDepthError * AbsReal(s))
  {
    var pr := ProjectKeypoint(b.kpts0[i][j], b.depth0[i], b.poses[i], b.k0Inv[i], b.k1[i]);
    var p := pr.warped;
    var q := LookupIndex(p, b.h1, b.w1);
    ConsistentIff(Sample(b.depth1[i], q), pr.cam.z);
    if Covisible(p, b.h1, b.w1) {
      assert q == Pixel(Trunc(p.x.val), Trunc(p.y.val));
    }
  }

  /** The warped keypoints do not depend on depth1: they are returned for
      every keypoint, valid or not. */
  lemma WarpedIgnoresDepth1(b: Batch, depth1: seq<Grid>)
    requires WellFormed(b) && WellFormed(b.(depth1 := depth1))
    ensures Warp(b.(depth1 := depth1)).warped == Warp(b).warped
  {
    var b' := b.(depth1 := depth1);
    forall i | 0 <= i < |b.kpts0|
      ensures Warp(b').warped[i] == Warp(b).warped[i]
    {
      assert forall j :: 0 <= j < b.len ==> WarpAt(b', i, j).warped == WarpAt(b, i, j).warped;
    }
  }

  /** The warped position of every keypoint, valid or not, is
      `(u / (w + 1e-4), v / (w + 1e-4))` with
      `(u, v, w) = K1 (R K0^-1 (d (x, y, 1)) + t)`, where (x, y) is the
      unrounded keypoint and d the depth0 sample at its rounded pixel. */
  lemma WarpedFormula(b: Batch, i: nat, j: nat)
    requires WellFormed(b) && i < |b.kpts0| && j < b.len
    ensures var k := b.kpts0[i][j];
            var d := Sample(b.depth0[i], LongPixel(k));
            var q := MatVec(b.k1[i], Add(MatVec(b.poses[i].rot, MatVec(b.k0Inv[i], Vec3(k.x * d, k.y * d, d))), b.poses[i].t));
            Warp(b).warped[i][j] == Warped(Div(Fin(q.x), Fin(q.z + DivideEps)), Div(Fin(q.y), Fin(q.z + DivideEps)))
  {
    assert Warp(b).warped[i][j] == WarpAt(b, i, j).warped;
  }

  /** With the identity pose and K1 = K0, a keypoint with depth d lands on
      its own (unrounded) coordinates times d, divided by d + 1e-4: the
      epsilon of the perspective divide is the only displacement, and a depth
      of exactly -1e-4 gives a non-finite point. */
  lemma IdentityPoseWarp(b: Batch, i: nat, j: nat)
    requires WellFormed(b) && InversesGiven(b) && i < |b.kpts0| && j < b.len
    requires b.poses[i] == Pose(Identity, Vec3(0.0, 0.0, 0.0)) && b.k1[i] == b.k0[i]
    ensures var k, d := b.kpts0[i][j], Sample(b.depth0[i], LongPixel(b.kpts0[i][j]));
            Warp(b).warped[i][j] == Warped(Div(Fin(k.x * d), Fin(d + DivideEps)), Div(Fin(k.y * d), Fin(d + DivideEps)))
  {
    var k, d := b.kpts0[i][j], Sample(b.depth0[i], LongPixel(b.kpts0[i][j]));
    assert IsInverse(b.k0[i], b.k0Inv[i]);
    IdentityProjection(b.k0[i], b.k0Inv[i], Vec3(k.x * d, k.y * d, d));
    assert Warp(b).warped[i][j] == WarpAt(b, i, j).warped;
  }

  /** The identity pose with K1 = K0 projects `K0^-1 v` back onto v divided
      by its depth plus 1e-4. */
  lemma IdentityProjection(kmat: Mat3, kInv: Mat3, v: Vec3)
    requires IsInverse(kmat, kInv)
    ensures Project(kmat, Transform(Pose(Identity, Vec3(0.0, 0.0, 0.0)), MatVec(kInv, v)))
            == Warped(Div(Fin(v.x), Fin(v.z + DivideEps)), Div(Fin(v.y), Fin(v.z + DivideEps)))
  {
    IdentityTransform(MatVec(kInv, v));
    assert MatVec(kmat, MatVec(kInv, v)) == v;
  }

  /** The identity pose moves no point. */
  lemma IdentityTransform(c: Vec3)
    ensures Transform(Pose(Identity, Vec3(0.0, 0.0, 0.0)), c) == c
  {
    MatVecIdentity(c);
  }

  /** The image pairs lo .. hi-1 of a batch, as a batch of their own; it
      holds at least one pair, as every batch does. */
  function Slice(b: Batch, lo: nat, hi: nat): (r: Batch)
    requires WellFormed(b) && lo < hi <= |b.kpts0|
    ensures WellFormed(r) && |r.kpts0| == hi - lo
  {
    b.(kpts0 := b.kpts0[lo..hi], depth0 := b.depth0[lo..hi], depth1 := b.depth1[lo..hi],
       poses := b.poses[lo..hi], k0 := b.k0[lo..hi], k0Inv := b.k0Inv[lo..hi], k1 := b.k1[lo..hi])
  }

  /** Two batches of the same shapes, one after the other. */
  function Concat(a: Batch, c: Batch): (r: Batch)
    requires WellFormed(a) && WellFormed(c)
    requires a.len == c.len && a.h0 == c.h0 && a.w0 == c.w0 && a.h1 == c.h1 && a.w1 == c.w1
    ensures WellFormed(r) && |r.kpts0| == |a.kpts0| + |c.kpts0|
  {
    a.(kpts0 := a.kpts0 + c.kpts0, depth0 := a.depth0 + c.depth0, depth1 := a.depth1 + c.depth1,
       poses := a.poses + c.poses, k0 := a.k0 + c.k0, k0Inv := a.k0Inv + c.k0Inv, k1 := a.k1 + c.k1)
  }

  /** Batch independence: warping a slice of the batch gives that slice of
      the batch's outputs. */
  lemma SliceIndependence(b: Batch, lo: nat, hi: nat)
    requires WellFormed(b) && lo < hi <= |b.kpts0|
    ensures Warp(Slice(b, lo, hi)) == WarpResult(Warp(b).valid[lo..hi], Warp(b).warped[lo..hi])
  {
    var w, ws := Warp(b), Warp(Slice(b, lo, hi));
    forall i | 0 <= i < hi - lo
      ensures ws.valid[i] == w.valid[lo + i] && ws.warped[i] == w.warped[lo + i]
    {
      SliceRow(b, lo, hi, i);
    }
    assert ws.valid == w.valid[lo..hi];
    assert ws.warped == w.warped[lo..hi];
  }

  /** Batch independence: warping two batches together gives the two
      results one after the other. */
  lemma ConcatIndependence(a: Batch, c: Batch)
    requires WellFormed(a) && WellFormed(c)
    requires a.len == c.len && a.h0 == c.h0 && a.w0 == c.w0 && a.h1 == c.h1 && a.w1 == c.w1
    ensures Warp(Concat(a, c)) == WarpResult(Warp(a).valid + Warp(c).valid, Warp(a).warped + Warp(c).warped)
  {
    var na := |a.kpts0|;
    var w, wa, wc := Warp(Concat(a, c)), Warp(a), Warp(c);
    forall i | 0 <= i < na + |c.kpts0|
      ensures w.valid[i] == (wa.valid + wc.valid)[i] && w.warped[i] == (wa.warped + wc.warped)[i]
    {
      ConcatRow(a, c, i);
    }
    assert w.valid == wa.valid + wc.valid;
    assert w.warped == wa.warped + wc.warped;
  }

  lemma SliceRow(b: Batch, lo: nat, hi: nat, i: nat)
    requires WellFormed(b) && lo < hi <= |b.kpts0| && i < hi - lo
    ensures Warp(Slice(b, lo, hi)).valid[i] == Warp(b).valid[lo + i]
    ensures Warp(Slice(b, lo, hi)).warped[i] == Warp(b).warped[lo + i]
  {
    var w, ws := Warp(b), Warp(Slice(b, lo, hi));
    forall j | 0 <= j < b.len
      ensures ws.valid[i][j] == w.valid[lo + i][j] && ws.warped[i][j] == w.warped[lo + i][j]
    {
      SliceAt(b, lo, hi, i, j);
    }
  }

  lemma ConcatRow(a: Batch, c: Batch, i: nat)
    requires WellFormed(a) && WellFormed(c)
    requires a.len == c.len && a.h0 == c.h0 && a.w0 == c.w0 && a.h1 == c.h1 && a.w1 == c.w1
    requires i < |a.kpts0| + |c.kpts0|
    ensures Warp(Concat(a, c)).valid[i] == (Warp(a).valid + Warp(c).valid)[i]
    ensures Warp(Concat(a, c)).warped[i] == (Warp(a).warped + Warp(c).warped)[i]
  {
    var na := |a.kpts0|;
    var w, wa, wc := Warp(Concat(a, c)), Warp(a), Warp(c);
    if i < na {
      forall j | 0 <= j < a.len
        ensures w.valid[i][j] == wa.valid[i][j] && w.warped[i][j] == wa.warped[i][j]
      {
        ConcatAt(a, c, i, j);
      }
      assert w.valid[i] == wa.valid[i] && w.warped[i] == wa.warped[i];
    } else {
      forall j | 0 <= j < a.len
        ensures w.valid[i][j] == wc.valid[i - na][j] && w.warped[i][j] == wc.warped[i - na][j]
      {
        ConcatAt(a, c, i, j);
      }
      assert w.valid[i] == wc.valid[i - na] && w.warped[i] == wc.warped[i - na];
    }
  }

  lemma SliceAt(b: Batch, lo: nat, hi: nat, i: nat, j: nat)
    requires WellFormed(b) && lo < hi <= |b.kpts0| && i < hi - lo && j < b.len
    ensures WarpAt(Slice(b, lo, hi), i, j) == WarpAt(b, lo + i, j)
  {
    var s := Slice(b, lo, hi);
    assert s.kpts0[i] == b.kpts0[lo + i] && s.depth0[i] == b.depth0[lo + i] && s.depth1[i] == b.depth1[lo + i];
    assert s.poses[i] == b.poses[lo + i] && s.k0Inv[i] == b.k0Inv[lo + i] && s.k1[i] == b.k1[lo + i];
  }

  lemma ConcatAt(a: Batch, c: Batch, i: nat, j: nat)
    requires WellFormed(a) && WellFormed(c)
    requires a.len == c.len && a.h0 == c.h0 && a.w0 == c.w0 && a.h1 == c.h1 && a.w1 == c.w1
    requires i < |a.kpts0| + |c.kpts0| && j < a.len
    ensures WarpAt(Concat(a, c), i, j)
            == if i < |a.kpts0| then WarpAt(a, i, j) else WarpAt(c, i - |a.kpts0|, j)
  {
    var r := Concat(a, c);
    var na := |a.kpts0|;
    if i < na {
      assert r.kpts0[i] == a.kpts0[i] && r.depth0[i] == a.depth0[i] && r.depth1[i] == a.depth1[i];
      assert r.poses[i] == a.poses[i] && r.k0Inv[i] == a.k0Inv[i] && r.k1[i] == a.k1[i];
    } else {
      assert r.kpts0[i] == c.kpts0[i - na] && r.depth0[i] == c.depth0[i - na] && r.depth1[i] == c.depth1[i - na];
      assert r.poses[i] == c.poses[i - na] && r.k0Inv[i] == c.k0Inv[i - na] && r.k1[i] == c.k1[i - na];
    }
  }
}
