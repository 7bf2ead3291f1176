/**
  JavaScript values and numeric operators that the rest of the model needs:
  numbers that may be non-finite, the two exception kinds the core throws,
  `undefined`-able values, and the arithmetic of `%`, `Math.round`,
  `Math.abs`, `Math.max`/`Math.min` and the `clamp` helper, over exact reals.
*/
module Js {

  /** A JavaScript number: a finite value, NaN, or one of the two infinities. */
  datatype Number = Finite(value: real) | NaN | Infinity(negative: bool)

  /** `Number.isFinite` */
  predicate IsFinite(x: Number) {
    x.Finite?
  }

  /** `Number.isInteger`: finite and without a fractional part. */
  predicate IsInteger(x: Number) {
    x.Finite? && x.value == x.value.Floor as real
  }

  /** The exceptions thrown by the modelled code. */
  datatype Error = TypeError | RangeError

  /** A call that either returns a value or throws. */
  datatype Result<T> = Ok(value: T) | Err(error: Error)

  /** A value that may be `undefined`. */
  datatype Option<T> = None | Some(value: T)

  /** `Math.abs` */
  function Abs(x: real): (r: real)
    ensures r >= 0.0 && (r == x || r == -x)
  {
    if x < 0.0 then -x else x
  }

  /** Truncation toward zero, the integer part JavaScript's `%` is defined by. */
  function Trunc(x: real): (k: int)
    ensures x >= 0.0 ==> k as real <= x < k as real + 1.0
    ensures x < 0.0 ==> k as real - 1.0 < x <= k as real
  {
    if x >= 0.0 then x.Floor else -((-x).Floor)
  }

  /** The JavaScript remainder `x % y`: its sign follows the dividend. */
  function Rem(x: real, y: real): (r: real)
    requires y > 0.0
    ensures x >= 0.0 ==> 0.0 <= r < y
    ensures x < 0.0 ==> -y < r <= 0.0
    ensures -y < x < y ==> r == x
  {
    var k := Trunc(x / y);
    RemBounds(x, y, k);
    x - y * (k as real)
  }

  /** The remainder differs from the dividend by a whole multiple of the divisor. */
  lemma RemIsRemainder(x: real, y: real)
    requires y > 0.0
    ensures exists k: int :: x == Times(y, k) + Rem(x, y)
  {
    var k := Trunc(x / y);
    assert x == Times(y, k) + Rem(x, y);
  }

  /** `y` taken `k` times. */
  function Times(y: real, k: int): real {
    y * (k as real)
  }

  lemma RemBounds(x: real, y: real, k: int)
    requires y > 0.0 && k == Trunc(x / y)
    ensures x >= 0.0 ==> 0.0 <= x - y * (k as real) < y
    ensures x < 0.0 ==> -y < x - y * (k as real) <= 0.0
    ensures -y < x < y ==> k == 0
  {
    if x >= 0.0 {
      DivNonNegative(x, y);
      RemStep(x, y, k as real);
    } else {
      DivNegative(x, y);
      RemStep(x, y, k as real - 1.0);
    }
    if -y < x < y {
      DivBelowOne(x, y);
    }
  }

  /** From `kr <= x / y < kr + 1` to the bounds of `x - y * kr`. */
  lemma RemStep(x: real, y: real, kr: real)
    requires y > 0.0
    ensures kr <= x / y < kr + 1.0 ==> 0.0 <= x - y * kr < y
    ensures kr < x / y <= kr + 1.0 ==> 0.0 < x - y * kr <= y
  {
    var q := x / y;
    DivMul(x, y);
    ScaleBounds(q, kr, y);
    if kr <= q < kr + 1.0 {
      calc {
        x;
      ==
        y * q;
      <
        y * kr + y;
      }
      calc {
        y * kr;
      <=
        y * q;
      ==
        x;
      }
    }
    if kr < q <= kr + 1.0 {
      calc {
        x;
      ==
        y * q;
      <=
        y * kr + y;
      }
      calc {
        y * kr;
      <
        y * q;
      ==
        x;
      }
    }
  }

  /** Multiplying `kr <= q < kr + 1` through by a positive `y`. */
  lemma ScaleBounds(q: real, kr: real, y: real)
    requires y > 0.0
    ensures kr <= q ==> y * kr <= y * q
    ensures q < kr + 1.0 ==> y * q < y * kr + y
    ensures kr < q ==> y * kr < y * q
    ensures q <= kr + 1.0 ==> y * q <= y * kr + y
  {
    assert y * (kr + 1.0) == y * kr + y;
    if kr <= q { MulMonotone(kr, q, y); }
    if q < kr + 1.0 { MulMonotoneStrict(q, kr + 1.0, y); }
    if kr < q { MulMonotoneStrict(kr, q, y); }
    if q <= kr + 1.0 { MulMonotone(q, kr + 1.0, y); }
  }

  lemma DivMul(x: real, y: real)
    requires y != 0.0
    ensures y * (x / y) == x && (x / y) * y == x
  {
  }

  lemma DivNonNegative(x: real, y: real)
    requires y > 0.0 && x >= 0.0
    ensures x / y >= 0.0
  {
  }

  lemma DivNegative(x: real, y: real)
    requires y > 0.0 && x < 0.0
    ensures x / y < 0.0
  {
  }

  lemma DivBelowOne(x: real, y: real)
    requires y > 0.0 && -y < x < y
    ensures -1.0 < x / y < 1.0
  {
  }

  lemma MulMonotone(a: real, b: real, y: real)
    requires y > 0.0 && a <= b
    ensures y * a <= y * b
  {
  }

  lemma MulMonotoneStrict(a: real, b: real, y: real)
    requires y > 0.0 && a < b
    ensures y * a < y * b
  {
  }

  /** `Math.round`: round half toward positive infinity. */
  function Round(x: real): (n: int)
    ensures n as real - 0.5 <= x < n as real + 0.5
  {
    (x + 0.5).Floor
  }

  /** `clamp(value, min, max)` of the math helpers. */
  function Clamp(value: real, min: real, max: real): (r: real)
    requires min <= max
    ensures min <= r <= max
    ensures min <= value <= max ==> r == value
    ensures value < min ==> r == min
    ensures value > max ==> r == max
  {
    if value < min then min else if value > max then max else value
  }

  /** `Math.max` of three numbers. */
  function Max3(a: real, b: real, c: real): (r: real)
    ensures r >= a && r >= b && r >= c
    ensures r == a || r == b || r == c
  {
    if a >= b && a >= c then a else if b >= c then b else c
  }

  /** `Math.min` of three numbers. */
  function Min3(a: real, b: real, c: real): (r: real)
    ensures r <= a && r <= b && r <= c
    ensures r == a || r == b || r == c
  {
    if a <= b && a <= c then a else if b <= c then b else c
  }
}
