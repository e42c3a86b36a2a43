/** Small notions every component shares. */
module Basics {

  datatype Option<T> = None | Some(value: T)

  type Byte = x: int | 0 <= x < 256

  function Min(a: int, b: int): int { if a < b then a else b }

  function Max(a: int, b: int): int { if a < b then b else a }

  lemma {:induction false} ProductOfNonNegatives(a: real, b: real)
    requires a >= 0.0 && b >= 0.0
    ensures a * b >= 0.0
  {
  }

  lemma {:induction false} NoMultipleBelow(k: nat, d: int)
    ensures k * d <= 0 || k * d >= k
  {
    if d >= 1 {
      assert k * d == k + k * (d - 1);
      assert k * (d - 1) >= 0;
    } else {
      assert k * d == -(k * -d) && k * -d >= 0;
    }
  }

  /** A remainder is what is left of a multiple, if it is less than the divisor. */
  lemma {:induction false} RemainderIsUnique(a: int, n: nat, q: int, r: nat)
    requires r < n && a == n * q + r
    ensures a % n == r
  {
    var d := q - a / n;
    assert n * d == n * q - n * (a / n);
    NoMultipleBelow(n, d);
    NoMultipleBelow(n, -d);
    assert n * -d == -(n * d);
  }

  lemma {:induction false} ProductOfPositives(a: real, b: real)
    requires a > 0.0 && b > 0.0
    ensures a * b > 0.0
  {
  }

  /** On which side of a whole number a quotient lies. */
  lemma {:induction false} SideOfQuotient(n: int, m: nat, x: real, k: int)
    requires m > 0 && x * m as real == n as real
    ensures x < k as real ==> n < k * m
    ensures x >= k as real ==> n >= k * m
  {
    if x < k as real { ProductOfPositives(k as real - x, m as real); } else { ProductOfNonNegatives(x - k as real, m as real); }
    assert (k as real - x) * m as real == k as real * m as real - n as real;
    assert (x - k as real) * m as real == n as real - k as real * m as real;
    assert k as real * m as real == (k * m) as real;
  }
}
