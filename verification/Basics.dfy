/** Shared vocabulary: optional values, failures, bytes and a few arithmetic and
    sequence helpers used by every component. */
module Basics {

  datatype Option<+T> = None | Some(value: T)

  datatype Result<+T, +E> = Ok(value: T) | Err(error: E)

  type byte = n: int | 0 <= n < 256

  function Min(a: int, b: int): int {
    if a <= b then a else b
  }

  function Max(a: int, b: int): int {
    if a <= b then b else a
  }

  /** Division rounding up, as `usize::div_ceil`. */
  function DivCeil(a: nat, b: nat): (q: nat)
    requires b > 0
    ensures a <= q * b < a + b
  {
    DivModIdentity(a + b - 1, b);
    (a + b - 1) / b
  }

  lemma {:induction false} DivModIdentity(a: nat, b: nat)
    requires b > 0
    ensures 0 <= a / b
    ensures a / b * b + a % b == a
    ensures 0 <= a % b < b
  {
  }

  lemma {:induction false} MulStep(a: int, b: int, c: int)
    requires a < b && c >= 0
    ensures a * c + c <= b * c
  {
    assert 0 <= (b - a - 1) * c == b * c - a * c - c;
  }

  /** A quotient is determined by the interval of multiples its dividend lies in. */
  lemma {:induction false} QuotientUnique(a: int, b: int, q: int, r: int)
    requires b > 0
    requires 0 <= a - q * b < b
    requires 0 <= a - r * b < b
    ensures q == r
  {
    if q < r {
      MulStep(q, r, b);
    } else if r < q {
      MulStep(r, q, b);
    }
  }

  /** The rounded-up quotient is the only integer in its interval. */
  lemma {:induction false} DivCeilUnique(a: nat, b: nat, q: nat)
    requires b > 0
    requires a <= q * b < a + b
    ensures DivCeil(a, b) == q
  {
    var d := DivCeil(a, b);
    if q < d {
      MulStep(q, d, b);
    } else if d < q {
      MulStep(d, q, b);
    }
  }

  lemma {:induction false} MulMonotone(a: nat, b: nat, c: nat)
    requires a <= b
    ensures a * c <= b * c
  {
  }

  /** Number of positions of `s` that hold `x`. */
  function Count<T(==)>(s: seq<T>, x: T): nat {
    multiset(s)[x]
  }
}
