/** Facts about multiplication, division and remainder that the solver does not find unaided. */
module Arith {

  lemma MulLe(a: int, b: int, c: int)
    requires a <= b && c >= 0
    ensures a * c <= b * c
  {
    assert b * c - a * c == (b - a) * c;
  }

  /** Division with a positive divisor has exactly one quotient and remainder. */
  lemma DivModUnique(a: int, b: int, q: int, r: int)
    requires b > 0 && 0 <= r < b && a == q * b + r
    ensures a / b == q && a % b == r
  {
    var q', r' := a / b, a % b;
    assert a == q' * b + r';
    if q' > q {
      MulLe(q + 1, q', b);
    } else if q' < q {
      MulLe(q' + 1, q, b);
    }
  }

  /** A digit `d < base` below a lower part `low < unit` stays below `base * unit`. */
  lemma DigitBound(d: int, base: int, low: int, unit: int)
    requires 0 <= d < base && 0 <= low < unit
    ensures 0 <= d * unit + low < base * unit
  {
    MulLe(d, base - 1, unit);
    MulLe(0, d, unit);
    assert (base - 1) * unit == base * unit - unit;
  }

  /** Incrementing modulo `p`: `(x + 1) % p` wraps to 0 exactly at `p - 1`. */
  lemma ModSucc(x: int, p: int)
    requires 0 <= x < p
    ensures (x + 1) % p == if x + 1 < p then x + 1 else 0
  {
    if x + 1 < p {
      DivModUnique(x + 1, p, 0, x + 1);
    } else {
      DivModUnique(x + 1, p, 1, 0);
    }
  }
}
