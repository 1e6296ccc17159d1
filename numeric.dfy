/** Scalar arithmetic of the warping code: floating-point values that may have
    become infinite or NaN, the rounding used for pixel lookups (torch.round,
    half to even) and the float-to-int64 conversion (.long(), toward zero). */
module Numeric {

  /** A floating-point value modelled over the reals.  IEEE +inf, -inf and NaN
      are collapsed into one NonFinite value: every test the warping code builds
      from such a value (the four-sided covisibility conjunction and the
      `< 0.2` bound on the relative depth error) is false, so those tests need
      not tell them apart.  Division does tell them apart (a finite value
      divided by an infinity is 0); see Div. */
  datatype Ext = Fin(val: real) | NonFinite

  /** Division as IEEE does it on finite operands: a zero divisor gives an
      infinity or NaN.  A non-finite operand always gives NonFinite here,
      which differs from IEEE for a finite value divided by an infinity. */
  function Div(a: Ext, b: Ext): (r: Ext)
    ensures r.Fin? <==> a.Fin? && b.Fin? && b.val != 0.0
  {
    if a.Fin? && b.Fin? && b.val != 0.0 then Fin(a.val / b.val) else NonFinite
  }

  /** Scaling both operands of a division by the same nonzero factor does
      not change the quotient. */
  lemma DivScale(c: real, x: real, z: real)
    requires c != 0.0
    ensures Div(Fin(c * x), Fin(c * z)) == Div(Fin(x), Fin(z))
  {
    if z != 0.0 {
      var t := x / z;
      assert x == t * z;
      assert c * x == t * (c * z);
      assert c * z != 0.0;
    }
  }

  /** Absolute value; the absolute value of inf or NaN is again inf or NaN. */
  function Abs(a: Ext): (r: Ext)
    ensures r.Fin? <==> a.Fin?
    ensures r.Fin? ==> r.val >= 0.0 && (r.val == a.val || r.val == -a.val)
  {
    match a
    case Fin(v) => Fin(AbsReal(v))
    case NonFinite => NonFinite
  }

  /** Absolute value of a real. */
  function AbsReal(x: real): real
  {
    if x < 0.0 then -x else x
  }

  /** `a > c` on a float: false for NaN; false or true for -inf/+inf, but the
      warping code only ever tests it together with the matching `<`, so the
      conjunction is false for every non-finite value. */
  predicate Above(a: Ext, c: real)
  {
    a.Fin? && a.val > c
  }

  /** `a < c` on a float (see Above for non-finite values). */
  predicate Below(a: Ext, c: real)
  {
    a.Fin? && a.val < c
  }

  /** torch.round: the nearest integer, ties to the even neighbour. */
  function Round(r: real): (n: int)
    ensures -0.5 <= r - n as real <= 0.5
    ensures (r - n as real == 0.5 || r - n as real == -0.5) ==> n % 2 == 0
  {
    var f := r.Floor;
    var frac := r - f as real;
    if frac < 0.5 then f
    else if frac > 0.5 then f + 1
    else if f % 2 == 0 then f
    else f + 1
  }

  /** Rounding an integer-valued real gives that integer back. */
  lemma RoundOfInteger(n: int)
    ensures Round(n as real) == n
  {
    var m := Round(n as real);
    assert -1 < n - m < 1 by {
      assert -0.5 <= n as real - m as real <= 0.5;
    }
  }

  /** Conversion of a real to an integer, rounding toward zero. */
  function Trunc(r: real): (n: int)
    ensures 0.0 <= r ==> 0 <= n && n as real <= r < n as real + 1.0
    ensures r < 0.0 ==> n <= 0 && n as real - 1.0 < r <= n as real
  {
    if r >= 0.0 then r.Floor else -((-r).Floor)
  }

  const MinInt64: int := -0x8000_0000_0000_0000
  const MaxInt64: int := 0x7fff_ffff_ffff_ffff

  /** Tensor.long() on one float: truncation toward zero when the result fits
      in an int64.  A non-finite or out-of-range value has no defined result
      in C++; the model picks INT64_MIN, the value x86 conversions produce. */
  function ToLong(a: Ext): (n: int)
    ensures MinInt64 <= n <= MaxInt64
    ensures a.Fin? && MinInt64 as real <= a.val < MaxInt64 as real + 1.0 ==> n == Trunc(a.val)
  {
    match a
    case Fin(v) =>
      var t := Trunc(v);
      if MinInt64 <= t <= MaxInt64 then t else MinInt64
    case NonFinite => MinInt64
  }

  /** A value strictly between 0 and `bound` (an int64-sized bound) converts to
      an integer in [0, bound - 1]. */
  lemma ToLongStrictlyInside(a: Ext, bound: int)
    requires bound <= MaxInt64
    requires Above(a, 0.0) && Below(a, bound as real)
    ensures 0 <= ToLong(a) <= bound - 1
  {
    var t := Trunc(a.val);
    assert t as real <= a.val < bound as real;
    assert t <= MaxInt64;
  }
}
