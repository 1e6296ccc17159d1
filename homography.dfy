/** The homography warps used for perturbed image pairs: make_homog,
    normalize, warp_kpts_ptb and warp_kpts_ptb_inv.  Both warps use the first
    image pair only: its keypoints are rounded to integer pixels, lifted to
    homogeneous coordinates, multiplied by the 3x3 homography (or its
    inverse) and divided by their third coordinate. */
module Homography {
  import opened Numeric
  import opened LinAlg
  import opened Keypoints
  import opened Tensors

  /** Column j of a matrix given by its rows. */
  function Column(m: seq<seq<real>>, j: nat): seq<real>
    requires forall i :: 0 <= i < |m| ==> j < |m[i]|
  {
    seq(|m|, i requires 0 <= i < |m| => m[i][j])
  }

  /** make_homog: a dim x n point matrix with a row of ones appended, so that
      every column becomes the homogeneous coordinates of its point. */
  function MakeHomog(points: seq<seq<real>>, n: nat): (r: seq<seq<real>>)
    requires forall i :: 0 <= i < |points| ==> |points[i]| == n
    ensures |r| == |points| + 1 && r[..|points|] == points
    ensures forall i :: 0 <= i < |r| ==> |r[i]| == n
    ensures forall j :: 0 <= j < n ==> Column(r, j) == Column(points, j) + [1.0]
  {
    var r := points + [seq(n, _ => 1.0)];
    assert forall j :: 0 <= j < n ==> Column(r, j) == Column(points, j) + [1.0] by {
      forall j | 0 <= j < n ensures Column(r, j) == Column(points, j) + [1.0] {
        assert forall i :: 0 <= i < |points| ==> Column(r, j)[i] == Column(points, j)[i];
      }
    }
    r
  }

  /** The vector held in column j of a 3 x n matrix. */
  function ColumnVec(m: seq<seq<real>>, j: nat): Vec3
    requires |m| == 3 && forall i :: 0 <= i < 3 ==> j < |m[i]|
  {
    Vec3(m[0][j], m[1][j], m[2][j])
  }

  /** `np.dot(homo, m)` for a 3 x n matrix m: column by column, the
      homography applied to that column. */
  function Apply(h: Mat3, m: seq<seq<real>>, n: nat): (r: seq<seq<real>>)
    requires |m| == 3 && forall i :: 0 <= i < 3 ==> |m[i]| == n
    ensures |r| == 3 && forall i :: 0 <= i < 3 ==> |r[i]| == n
    ensures forall j :: 0 <= j < n ==> ColumnVec(r, j) == MatVec(h, ColumnVec(m, j))
  {
    [seq(n, j requires 0 <= j < n => Dot(h.r0, ColumnVec(m, j))),
     seq(n, j requires 0 <= j < n => Dot(h.r1, ColumnVec(m, j))),
     seq(n, j requires 0 <= j < n => Dot(h.r2, ColumnVec(m, j)))]
  }

  /** One row of normalize: every entry divided by the row's original last
      entry.  The last entry becomes 1, or, when it was 0, the whole row
      becomes inf/NaN.  A row whose last entry is already non-finite is
      modelled as non-finite throughout; IEEE would give 0 for its finite
      entries divided by an infinity, but the warps only normalize finite
      rows. */
  function NormalizeRow(row: seq<Ext>): (r: seq<Ext>)
    requires |row| > 0
    ensures |r| == |row|
    ensures row[|row| - 1].Fin? && row[|row| - 1].val != 0.0 ==> r[|r| - 1] == Fin(1.0)
    ensures !(row[|row| - 1].Fin? && row[|row| - 1].val != 0.0) ==>
              forall i :: 0 <= i < |r| ==> r[i] == NonFinite
  {
    seq(|row|, i requires 0 <= i < |row| => Div(row[i], row[|row| - 1]))
  }

  /** normalize: each row of the array divided in place by its last entry,
      which is read before the row changes. */
  method Normalize(points: array2<Ext>)
    requires points.Length0 == 0 || points.Length1 > 0
    modifies points
    ensures Rows(points) == seq(points.Length0, i requires 0 <= i < points.Length0 =>
              NormalizeRow(old(Rows(points))[i]))
  {
    var n, d := points.Length0, points.Length1;
    ghost var before := Rows(points);
    var i := 0;
    while i < n
      invariant 0 <= i <= n
      invariant forall r, k :: 0 <= r < i && 0 <= k < d ==> points[r, k] == NormalizeRow(before[r])[k]
      invariant forall r, k :: i <= r < n && 0 <= k < d ==> points[r, k] == before[r][k]
    {
      var last := points[i, d - 1];
      forall k | 0 <= k < d {
        points[i, k] := Div(points[i, k], last);
      }
      i := i + 1;
    }
    forall r | 0 <= r < n
      ensures Rows(points)[r] == NormalizeRow(before[r])
    {
    }
  }

  /** The homogeneous coordinates `(col, row, 1)` of a pixel. */
  function Lift(p: Pixel): Vec3
  {
    Vec3(p.col as real, p.row as real, 1.0)
  }

  /** A point in homogeneous coordinates divided by its third coordinate. */
  function Dehomog(q: Vec3): Warped
  {
    Warped(Div(Fin(q.x), Fin(q.z)), Div(Fin(q.y), Fin(q.z)))
  }

  /** warp_kpts_ptb for one keypoint: the homography applied to the
      homogeneous coordinates of the rounded pixel, divided by the third
      coordinate. */
  function HomogPoint(h: Mat3, k: Point2): Warped
  {
    Dehomog(MatVec(h, Lift(LongPixel(k))))
  }

  /** The keypoints of one image warped by a homography. */
  function WarpHomography(pts: seq<Point2>, h: Mat3): (r: seq<Warped>)
    ensures |r| == |pts|
    ensures forall j :: 0 <= j < |pts| ==>
              var p := Lift(LongPixel(pts[j]));
              r[j] == Warped(Div(Fin(Dot(h.r0, p)), Fin(Dot(h.r2, p))), Div(Fin(Dot(h.r1, p)), Fin(Dot(h.r2, p))))
  {
    seq(|pts|, j requires 0 <= j < |pts| => HomogPoint(h, pts[j]))
  }

  /** The body shared by warp_kpts_ptb and warp_kpts_ptb_inv, for the
      keypoints of the first image pair and the matrix that warps them. */
  method WarpFirst(pts: seq<Point2>, h: Mat3) returns (r: seq<Warped>)
    ensures r == WarpHomography(pts, h)
  {
    var n := |pts|;
    // kpts0.round().long(), then kpts[0].T: a 2 x n integer matrix.
    var long := seq(n, j requires 0 <= j < n => LongPixel(pts[j]));
    var kpts := [seq(n, j requires 0 <= j < n => long[j].col as real),
                 seq(n, j requires 0 <= j < n => long[j].row as real)];
    var homog := MakeHomog(kpts, n);
    // np.dot(homo, kpts_m).T: one row (x, y, z) per keypoint.
    var prod := Apply(h, homog, n);
    var warped := new Ext[n, 3]((j, c) requires 0 <= j < n && 0 <= c < 3 => Fin(prod[c][j]));
    ghost var before := Rows(warped);
    Normalize(warped);
    // np.delete(kpts_warped, -1, axis=1).
    var rows := Rows(warped);
    r := seq(n, j requires 0 <= j < n => Warped(rows[j][0], rows[j][1]));
    forall j | 0 <= j < n
      ensures r[j] == HomogPoint(h, pts[j])
    {
      var q := MatVec(h, Lift(long[j]));
      assert Column(homog, j) == [long[j].col as real, long[j].row as real, 1.0] by {
        assert Column(kpts, j) == [long[j].col as real, long[j].row as real];
      }
      assert ColumnVec(prod, j) == q by {
        assert ColumnVec(homog, j) == Lift(long[j]) by {
          assert Column(homog, j)[0] == homog[0][j];
          assert Column(homog, j)[1] == homog[1][j];
          assert Column(homog, j)[2] == homog[2][j];
        }
      }
      assert before[j] == [Fin(q.x), Fin(q.y), Fin(q.z)];
      assert rows[j] == NormalizeRow(before[j]);
    }
  }

  /** warp_kpts_ptb: the keypoints of the first image pair warped by the
      first homography, as a batch of one. */
  method WarpKptsPtb(kpts0: seq<seq<Point2>>, homo: seq<Mat3>) returns (w: seq<seq<Warped>>)
    requires |kpts0| > 0 && |homo| > 0
    ensures w == [WarpHomography(kpts0[0], homo[0])]
  {
    var r := WarpFirst(kpts0[0], homo[0]);
    w := [r];
  }

  /** warp_kpts_ptb_inv: the same with the inverse of the first homography,
      which the caller supplies in place of np.linalg.inv. */
  method WarpKptsPtbInv(kpts0: seq<seq<Point2>>, homo: seq<Mat3>, homoInv: Mat3)
    returns (w: seq<seq<Warped>>)
    requires |kpts0| > 0 && |homo| > 0 && IsInverse(homo[0], homoInv)
    ensures w == [WarpHomography(kpts0[0], homoInv)]
  {
    var r := WarpFirst(kpts0[0], homoInv);
    w := [r];
  }

  /** Normalizing twice is normalizing once: a normalized row ends in 1, or
      is non-finite throughout. */
  lemma NormalizeRowIdempotent(row: seq<Ext>)
    requires |row| > 0
    ensures NormalizeRow(NormalizeRow(row)) == NormalizeRow(row)
  {
    var r := NormalizeRow(row);
    forall i | 0 <= i < |r|
      ensures NormalizeRow(r)[i] == r[i]
    {
      if r[i].Fin? {
        assert r[|r| - 1] == Fin(1.0);
        assert r[i].val / 1.0 == r[i].val;
      }
    }
  }

  /** Every finite entry of a row multiplied by c. */
  function ScaleRow(c: real, row: seq<Ext>): (r: seq<Ext>)
    ensures |r| == |row|
  {
    seq(|row|, i requires 0 <= i < |row| => if row[i].Fin? then Fin(c * row[i].val) else NonFinite)
  }

  /** Homogeneous coordinates are defined up to scale: a row and any nonzero
      multiple of it normalize alike. */
  lemma NormalizeRowScale(c: real, row: seq<Ext>)
    requires c != 0.0 && |row| > 0
    ensures NormalizeRow(ScaleRow(c, row)) == NormalizeRow(row)
  {
    var s := ScaleRow(c, row);
    var last := row[|row| - 1];
    forall i | 0 <= i < |row|
      ensures NormalizeRow(s)[i] == NormalizeRow(row)[i]
    {
      if row[i].Fin? && last.Fin? {
        DivScale(c, row[i].val, last.val);
      }
    }
  }

  /** Dehomogenizing the lifted pixel gives the pixel back. */
  lemma DehomogLift(p: Pixel)
    ensures Dehomog(Lift(p)) == Warped(Fin(p.col as real), Fin(p.row as real))
  {
  }

  /** Homogeneous coordinates are defined up to a nonzero scale. */
  lemma DehomogScale(c: real, q: Vec3)
    requires c != 0.0
    ensures Dehomog(Scale(c, q)) == Dehomog(q)
  {
    DivScale(c, q.x, q.z);
    DivScale(c, q.y, q.z);
  }

  /** A point that dehomogenizes to a finite position is a nonzero multiple
      of that position's homogeneous coordinates. */
  lemma DehomogFinite(q: Vec3, x: real, y: real)
    requires Dehomog(q) == Warped(Fin(x), Fin(y))
    ensures q.z != 0.0 && Scale(1.0 / q.z, q) == Vec3(x, y, 1.0)
  {
    assert x == q.x / q.z && y == q.y / q.z;
  }

  /** The identity homography warps every keypoint onto its own rounded
      pixel. */
  lemma IdentityHomography(pts: seq<Point2>, j: nat)
    requires j < |pts|
    ensures var p := LongPixel(pts[j]);
            WarpHomography(pts, Identity)[j] == Warped(Fin(p.col as real), Fin(p.row as real))
  {
    var p := LongPixel(pts[j]);
    MatVecIdentity(Lift(p));
    DehomogLift(p);
  }

  /** The inverse warp undoes the forward warp of a keypoint whose warped
      position is an integer pixel (warp_kpts_ptb_inv rounds its input, so
      only such positions come back exactly): it returns the keypoint's own
      rounded pixel. */
  lemma HomographyRoundTrip(h: Mat3, hInv: Mat3, k: Point2, col: int, row: int)
    requires IsInverse(h, hInv)
    requires MinInt64 <= col <= MaxInt64 && MinInt64 <= row <= MaxInt64
    requires HomogPoint(h, k) == Warped(Fin(col as real), Fin(row as real))
    ensures var p := LongPixel(k);
            HomogPoint(hInv, Point2(col as real, row as real)) == Warped(Fin(p.col as real), Fin(p.row as real))
  {
    var p := LongPixel(k);
    var v := Lift(p);
    var q := MatVec(h, v);
    DehomogFinite(q, col as real, row as real);
    var s := 1.0 / q.z;
    LongPixelOfIntegers(col, row);
    assert Lift(LongPixel(Point2(col as real, row as real))) == Scale(s, q);
    MatVecScale(hInv, s, q);
    assert MatVec(hInv, q) == v;
    DehomogScale(s, v);
    DehomogLift(p);
  }

  /** A position on integer coordinates that fit in an int64. */
  predicate IntegerPixel(k: Point2)
  {
    && k.x == k.x.Floor as real && MinInt64 <= k.x.Floor <= MaxInt64
    && k.y == k.y.Floor as real && MinInt64 <= k.y.Floor <= MaxInt64
  }

  /** The rounded pixels of a list of keypoints, as warped positions. */
  function RoundedPixels(pts: seq<Point2>): (r: seq<Warped>)
    ensures |r| == |pts|
  {
    seq(|pts|, j requires 0 <= j < |pts| =>
      Warped(Fin(LongPixel(pts[j]).col as real), Fin(LongPixel(pts[j]).row as real)))
  }

  /** warp_kpts_ptb_inv after warp_kpts_ptb: when every forward-warped point
      lands on an integer pixel, so that the rounding of the second warp
      changes nothing, the inverse warp returns the rounded keypoints. */
  lemma WarpRoundTrip(pts: seq<Point2>, h: Mat3, hInv: Mat3, back: seq<Point2>)
    requires IsInverse(h, hInv) && |back| == |pts|
    requires forall j :: 0 <= j < |pts| ==> IntegerPixel(back[j])
    requires forall j :: 0 <= j < |pts| ==>
               WarpHomography(pts, h)[j] == Warped(Fin(back[j].x), Fin(back[j].y))
    ensures WarpHomography(back, hInv) == RoundedPixels(pts)
  {
    forall j | 0 <= j < |pts|
      ensures WarpHomography(back, hInv)[j] == RoundedPixels(pts)[j]
    {
      var col, row := back[j].x.Floor, back[j].y.Floor;
      assert back[j] == Point2(col as real, row as real);
      HomographyRoundTrip(h, hInv, pts[j], col, row);
    }
  }
}
