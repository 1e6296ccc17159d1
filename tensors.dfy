/** Reading a dense 2-D array back as a value. */
module Tensors {

  /** The rows of a 2-D array, as a sequence of sequences. */
  function Rows<T>(a: array2<T>): (r: seq<seq<T>>)
    reads a
    ensures |r| == a.Length0
    ensures forall i :: 0 <= i < a.Length0 ==> |r[i]| == a.Length1
  {
    seq(a.Length0, i requires 0 <= i < a.Length0 reads a =>
      seq(a.Length1, j requires 0 <= j < a.Length1 reads a => a[i, j]))
  }
}
