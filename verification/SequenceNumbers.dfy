/**
 Wrap-safe comparison of fixed-width sequence numbers: a 32-bit video frame number and
 a 16-bit voice packet number. The subtraction wraps and the result is read as a signed
 number of the same width, as in section 3.2 of RFC 1982.
 */
module SequenceNumbers {

  const TWO32: int := 0x1_0000_0000
  const HALF32: int := 0x8000_0000
  const TWO16: int := 0x1_0000
  const HALF16: int := 0x8000

  type Seq32 = x: int | 0 <= x < 0x1_0000_0000
  type Seq16 = x: int | 0 <= x < 0x1_0000

  /** The signed 32-bit value of `a - b`. */
  function Distance(a: Seq32, b: Seq32): (d: int)
    ensures -HALF32 <= d < HALF32
  {
    if a - b < -HALF32 then a - b + TWO32
    else if a - b >= HALF32 then a - b - TWO32
    else a - b
  }

  /** It is the one number of that width congruent to the difference. */
  lemma {:induction false} DistanceIsTheWrappedDifference(a: Seq32, b: Seq32, d: int)
    requires -HALF32 <= d < HALF32
    ensures (a - b - d) % TWO32 == 0 <==> d == Distance(a, b)
  {
    var k := (a - b - d) / TWO32;
    if (a - b - d) % TWO32 == 0 {
      assert a - b - d == k * TWO32;
    }
  }

  predicate Newer(a: Seq32, b: Seq32) {
    Distance(a, b) > 0
  }

  function Succ(a: Seq32): (r: Seq32)
    ensures Distance(r, a) == 1
  {
    if a == TWO32 - 1 then 0 else a + 1
  }

  /** The sequence number `n` places after `k`. */
  function Plus(k: Seq32, n: nat): (r: Seq32)
    requires n < HALF32
    ensures Distance(r, k) == n
  {
    if k + n >= TWO32 then k + n - TWO32 else k + n
  }

  /** The signed 16-bit value of `b - a`: positive when `b` is ahead of `a`. */
  function Ahead(a: Seq16, b: Seq16): (d: int)
    ensures -HALF16 <= d < HALF16
  {
    if b - a < -HALF16 then b - a + TWO16
    else if b - a >= HALF16 then b - a - TWO16
    else b - a
  }

  function Succ16(a: Seq16): (r: Seq16)
    ensures Ahead(a, r) == 1
  {
    if a == TWO16 - 1 then 0 else a + 1
  }

  lemma {:induction false} AheadIsTheWrappedDifference(a: Seq16, b: Seq16, d: int)
    requires -HALF16 <= d < HALF16
    ensures (b - a - d) % TWO16 == 0 <==> d == Ahead(a, b)
  {
    var k := (b - a - d) / TWO16;
    if (b - a - d) % TWO16 == 0 {
      assert b - a - d == k * TWO16;
    }
  }
}
