/** Keypoints as both warps see them: real pixel coordinates `<x, y>`, their
    integer pixel index, and a warped position that may be non-finite. */
module Keypoints {
  import opened Numeric

  /** A keypoint `<x, y>`: x is the column, y the row. */
  datatype Point2 = Point2(x: real, y: real)

  /** An integer pixel index `<col, row>`, as the `.long()` tensors hold it. */
  datatype Pixel = Pixel(col: int, row: int)

  /** A warped keypoint `<x, y>` as a float pair. */
  datatype Warped = Warped(x: Ext, y: Ext)

  /** `kpts.round().long()` on one keypoint: each coordinate is rounded half
      to even, then converted to an int64.  A rounded value that fits in an
      int64 is kept as it is; the result is always an int64. */
  function LongPixel(k: Point2): (p: Pixel)
    ensures MinInt64 <= p.col <= MaxInt64 && MinInt64 <= p.row <= MaxInt64
    ensures MinInt64 <= Round(k.x) <= MaxInt64 ==> p.col == Round(k.x)
    ensures MinInt64 <= Round(k.y) <= MaxInt64 ==> p.row == Round(k.y)
  {
    Pixel(ToLong(Fin(Round(k.x) as real)), ToLong(Fin(Round(k.y) as real)))
  }

  /** A keypoint on integer coordinates inside the int64 range is its own
      pixel index. */
  lemma LongPixelOfIntegers(col: int, row: int)
    requires MinInt64 <= col <= MaxInt64 && MinInt64 <= row <= MaxInt64
    ensures LongPixel(Point2(col as real, row as real)) == Pixel(col, row)
  {
    RoundOfInteger(col);
    RoundOfInteger(row);
  }
}
