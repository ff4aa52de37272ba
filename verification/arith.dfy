/** Facts about multiplication and division by a positive number, used by the size and
    index computations of the byte vectors and the mesh generators. */
module Arith {
  lemma MulSucc(n: int, s: int)
    ensures (n + 1) * s == n * s + s
  {
  }

  lemma MulLe(a: int, b: int, s: int)
    requires a <= b && 0 <= s
    ensures a * s <= b * s
  {
    MulNonNeg(b - a, s);
    assert (b - a) * s == b * s - a * s;
  }

  lemma MulNonNeg(n: int, s: int)
    requires 0 <= n && 0 <= s
    ensures 0 <= n * s
  {
  }

  /** Division by a positive number is determined by quotient and remainder. */
  lemma DivUnique(n: int, s: int, q: int, r: int)
    requires 0 < s && 0 <= r < s && n == q * s + r
    ensures n / s == q && n % s == r
  {
    var q', r' := n / s, n % s;
    assert n == q' * s + r';
    assert (q - q') * s == r' - r by { assert (q - q') * s == q * s - q' * s; }
    if q' < q {
      MulNonNeg(q - q' - 1, s);
      MulSucc(q - q' - 1, s);
    } else if q < q' {
      MulNonNeg(q' - q - 1, s);
      MulSucc(q' - q - 1, s);
    }
  }

  /** The quotient brackets the dividend. */
  lemma DivBounds(n: int, s: int)
    requires 0 <= n && 0 < s
    ensures 0 <= n / s && (n / s) * s <= n < (n / s + 1) * s
  {
    MulSucc(n / s, s);
  }

  /** `n` copies of `s` added up: a product as a loop that steps by `s` builds it. */
  function Times(n: nat, s: int): (t: int)
    ensures 0 <= s ==> 0 <= t
  {
    if n == 0 then 0 else Times(n - 1, s) + s
  }

  lemma {:induction false} TimesIsMul(n: nat, s: int)
    ensures Times(n, s) == n * s
  {
    if n > 0 {
      TimesIsMul(n - 1, s);
      MulSucc(n - 1, s);
    }
  }

  /** More copies of a non-negative number add up to at least as much. */
  lemma {:induction false} TimesMono(a: nat, b: nat, s: int)
    requires a <= b && 0 <= s
    ensures 0 <= Times(a, s) <= Times(b, s)
    decreases b
  {
    if a < b {
      TimesMono(a, b - 1, s);
    } else if a > 0 {
      TimesMono(a - 1, a - 1, s);
    }
  }
}
