/** Facts about Euclidean division by a positive divisor, which is what
    `Math.floor(a / b)` computes on integers when `b > 0`. */
module Arith {

  /** A non-zero multiple of `d` is at least `d` away from zero. */
  lemma MulGap(k: int, d: int)
    requires d > 0
    ensures k >= 1 ==> k * d >= d
    ensures k <= -1 ==> k * d <= -d
  {
  }

  /** Euclidean division is determined by quotient and remainder. */
  lemma DivUnique(a: int, d: int, q: int, r: int)
    requires d > 0 && a == q * d + r && 0 <= r < d
    ensures a / d == q && a % d == r
  {
    var q', r' := a / d, a % d;
    assert a == q' * d + r';
    assert (q - q') * d == r' - r;
    MulGap(q - q', d);
  }

  /** Multiplying by a positive factor keeps a strict order in reverse. */
  lemma MulCancelLess(s: int, c: int, b: int)
    requires b > 0 && s * b < c * b
    ensures s < c
  {
  }

  /** A quotient `q` and remainder `r` by `b * c`, with `r` split by `b`
      into `s` and `t`, give the quotient `q * c + s` and remainder `t` by `b`. */
  lemma Recombine(a: int, b: int, c: int, q: int, r: int, s: int, t: int)
    requires b > 0 && c > 0
    requires a == q * (b * c) + r && 0 <= r < b * c
    requires r == s * b + t && 0 <= t < b
    ensures a == (q * c + s) * b + t && 0 <= s < c
  {
    assert s < c by {
      assert c * b == b * c;
      MulCancelLess(s, c, b);
    }
    assert 0 <= s by {
      if s < 0 { MulGap(s, b); }
    }
    Regroup(q, s, b, c);
  }

  lemma Regroup(q: int, s: int, b: int, c: int)
    ensures q * (b * c) + s * b == (q * c + s) * b
  {
  }

  /** `Math.floor(Math.floor(a / b) / c) == Math.floor(a / (b * c))` for
      positive divisors: successive unit conversions can be done at once. */
  lemma FloorDivDiv(a: int, b: int, c: int)
    requires b > 0 && c > 0
    ensures (a / b) / c == a / (b * c)
  {
    var bc := b * c;
    assert bc > 0 by { MulGap(c, b); assert c * b == bc; }
    var q, r := a / bc, a % bc;
    var s, t := r / b, r % b;
    Recombine(a, b, c, q, r, s, t);
    var m := q * c + s;
    DivUnique(a, b, m, t);
    DivUnique(m, c, q, s);
  }
}
