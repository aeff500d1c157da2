/** Java's numeric conversions as the rasterizer uses them: the (int) cast of
    a double, Math.round and the Double.MAX_VALUE / Double.MIN_VALUE
    constants. Doubles are modelled as exact reals; rounding of double
    arithmetic is not modelled. */
module JavaNum {

  const IntMin: int := -0x8000_0000
  const IntMax: int := 0x7fff_ffff
  const LongMin: int := -0x8000_0000_0000_0000
  const LongMax: int := 0x7fff_ffff_ffff_ffff

  /** Double.MAX_VALUE = (2 - 2^-52) * 2^1023, the initial depth of every
      Z-buffer cell. */
  const DoubleMaxValue: real := 179769313486231570814527423731704356798070567525844996598917476803157260780028538760589558632766878171540458953514382464234321326889464182768467546703537516986049910576551282076245490090389328944075868508455133942304583236903222948165808559332123348274797826204144723168738177180919299881250404026184124858368.0

  /** Double.MIN_VALUE = 2^-1074, the smallest POSITIVE double; the Z-buffer
      returns it as the depth of an out-of-range pixel. */
  const DoubleMinValue: real := 1.0 / 202402253307310618352495346718917307049556649764142118356901358027430339567995346891960383701437124495187077864316811911389808737385793476867013399940738509921517424276566361364466907742093216341239767678472745068562007483424692698618103355649159556340810056512358769552333414615230502532186327508646006263307707741093494784.0

  /** A value Java's int can hold. */
  predicate InIntRange(n: int) {
    IntMin <= n <= IntMax
  }

  /** Java int arithmetic: the exact result n reduced to the one int that is
      congruent to it modulo 2^32 (two's-complement wrap-around). */
  function Wrap32(n: int): (r: int)
    ensures InIntRange(r)
    ensures (r - n) % 0x1_0000_0000 == 0
    ensures InIntRange(n) ==> r == n
  {
    (n - IntMin) % 0x1_0000_0000 + IntMin
  }

  /** A difference of two distinct ints never wraps to zero. */
  lemma Wrap32NonZero(n: int)
    requires 0 < n < 0x1_0000_0000
    ensures Wrap32(n) != 0
  {
  }

  /** Rounding toward zero. */
  function Trunc(r: real): (i: int)
    ensures r >= 0.0 ==> 0 <= i && i as real <= r < i as real + 1.0
    ensures r < 0.0 ==> i <= 0 && i as real - 1.0 < r <= i as real
  {
    if r >= 0.0 then r.Floor else -((-r).Floor)
  }

  /** The (int) cast of a double: truncation toward zero, saturating at the
      bounds of int (NaN is not modelled). */
  function DoubleToInt(r: real): (i: int)
    ensures IntMin <= i <= IntMax
    ensures IntMin as real <= r < (IntMax + 1) as real ==> i == Trunc(r)
    ensures r <= IntMin as real ==> i == IntMin
    ensures r >= IntMax as real ==> i == IntMax
  {
    if r <= IntMin as real then IntMin
    else if r >= IntMax as real then IntMax
    else Trunc(r)
  }

  /** Math.round(double): the closest long, ties toward positive infinity,
      saturating at the bounds of long. */
  function MathRound(r: real): (l: int)
    ensures LongMin <= l <= LongMax
    ensures LongMin as real <= r < LongMax as real ==> l as real - 0.5 <= r < l as real + 0.5
    ensures r >= LongMax as real ==> l == LongMax
    ensures r <= LongMin as real ==> l == LongMin
  {
    var f := (r + 0.5).Floor;
    if f < LongMin then LongMin else if f > LongMax then LongMax else f
  }

  /** An integer-valued cast never changes an integer in range. */
  lemma DoubleToIntOfInt(n: int)
    requires IntMin <= n <= IntMax
    ensures DoubleToInt(n as real) == n
  {
  }
}
