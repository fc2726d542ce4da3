/**
 * The pieces of the JavaScript runtime the scorers rely on, over exact reals:
 * `Math.round`, `Math.sqrt` and `String.prototype.includes`.
 */
module JsMath {

  /** `Math.round`: the nearest integer, with halves rounded upward. */
  function Round(x: real): (r: int)
    ensures r as real - 0.5 <= x < r as real + 0.5
  {
    (x + 0.5).Floor
  }

  lemma RoundMonotone(x: real, y: real)
    requires x <= y
    ensures Round(x) <= Round(y)
  {
  }

  /** Rounding an integer-valued real gives that integer back. */
  lemma RoundOfInteger(n: int)
    ensures Round(n as real) == n
  {
  }

  /**
   * What the model relies on of `Math.sqrt`: on a non-negative argument it
   * returns the non-negative square root. `Math.sqrt` itself is a runtime
   * primitive, so every operation that uses it takes it as a parameter.
   */
  ghost predicate IsSquareRoot(sqrt: real -> real)
  {
    forall x: real :: 0.0 <= x ==> 0.0 <= sqrt(x) && sqrt(x) * sqrt(x) == x
  }

  /** A product with a positive factor has the sign of the other factor. */
  lemma SignOfFactor(p: real, q: real)
    requires 0.0 < q && 0.0 <= p * q
    ensures 0.0 <= p
  {
  }

  /** Only zero squares to zero (the factors are kept apart for the solver's sake). */
  lemma SquareZero(z: real, w: real)
    requires 0.0 <= z && w == z && z * w == 0.0
    ensures z == 0.0
  {
    if z != 0.0 {
      assert z * w == z * z;
      assert z * z > 0.0;
    }
  }

  lemma SqrtOfZeroAndOne(sqrt: real -> real)
    requires IsSquareRoot(sqrt)
    ensures sqrt(0.0) == 0.0 && sqrt(1.0) == 1.0
  {
    var one := sqrt(1.0);
    assert 0.0 <= one && one * one == 1.0;
    assert (one - 1.0) * (one + 1.0) == 0.0;
    SignOfFactor(one - 1.0, one + 1.0);
    assert (1.0 - one) * (one + 1.0) == 0.0;
    SignOfFactor(1.0 - one, one + 1.0);
    var zero := sqrt(0.0);
    assert 0.0 <= zero && zero * zero == 0.0;
    SquareZero(zero, zero);
  }

  /** The root of a number in [0,1] lies in [0,1]. */
  lemma SqrtUnitInterval(sqrt: real -> real, x: real)
    requires IsSquareRoot(sqrt)
    requires 0.0 <= x <= 1.0
    ensures 0.0 <= sqrt(x) <= 1.0
  {
    var r := sqrt(x);
    assert 0.0 <= r && r * r == x;
    assert (1.0 - r) * (1.0 + r) == 1.0 - x;
    SignOfFactor(1.0 - r, 1.0 + r);
  }

  lemma SqrtMonotone(sqrt: real -> real, x: real, y: real)
    requires IsSquareRoot(sqrt)
    requires 0.0 <= x <= y
    ensures sqrt(x) <= sqrt(y)
  {
    var a, b := sqrt(x), sqrt(y);
    assert 0.0 <= a && a * a == x;
    assert 0.0 <= b && b * b == y;
    if 0.0 < a + b {
      assert (b - a) * (a + b) == y - x;
      SignOfFactor(b - a, a + b);
    }
  }

  /** Only zero has root zero. */
  lemma SqrtPositive(sqrt: real -> real, x: real)
    requires IsSquareRoot(sqrt)
    requires 0.0 < x
    ensures 0.0 < sqrt(x)
  {
    var r := sqrt(x);
    assert 0.0 <= r && r * r == x;
  }

  /** `String.prototype.includes`: `needle` occurs in `text` as a contiguous block. */
  predicate Includes(text: string, needle: string)
    decreases |text|
  {
    needle <= text || (text != [] && Includes(text[1..], needle))
  }

  /** An occurrence in either part of a concatenation is an occurrence in the whole. */
  lemma {:induction false} IncludesInConcat(a: string, b: string, needle: string)
    requires Includes(a, needle) || Includes(b, needle)
    ensures Includes(a + b, needle)
  {
    if Includes(a, needle) && needle <= a {
      assert (a + b)[..|needle|] == a[..|needle|];
    } else if a == [] {
      assert a + b == b;
    } else {
      assert (a + b)[1..] == a[1..] + b;
      IncludesInConcat(a[1..], b, needle);
    }
  }
}
