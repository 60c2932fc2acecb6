/**
 * `backoffDelay` (src/utils/backoff.ts): the delay before the attempt-th
 * retry is `floor(baseMs * factor^max(0, attempt - 1))`. The model takes an
 * integer base and factor, for which the floor is the identity.
 */
module Backoff {

  const DefaultBaseMs: int := 500
  const DefaultFactor: int := 2

  /** `Math.pow` on an integer base and a natural exponent. */
  function Pow(b: int, e: nat): (p: int)
    ensures b >= 0 ==> p >= 0
    ensures b >= 1 ==> p >= 1
  {
    if e == 0 then 1
    else
      var q := Pow(b, e - 1);
      assert b >= 0 ==> b * q >= 0;
      assert b >= 1 ==> b * q >= q;
      b * q
  }

  /** The exponent `Math.max(0, attempt - 1)`. */
  function Exponent(attempt: int): nat {
    if attempt - 1 > 0 then attempt - 1 else 0
  }

  /** `backoffDelay(attempt, baseMs, factor)`. */
  function BackoffDelay(attempt: int, baseMs: int, factor: int): (d: int)
    ensures attempt <= 1 ==> d == baseMs
    ensures baseMs >= 0 && factor >= 0 ==> d >= 0
  {
    var p := Pow(factor, Exponent(attempt));
    assert baseMs >= 0 && p >= 0 ==> baseMs * p >= 0;
    baseMs * p
  }

  /** Each further attempt multiplies the delay by `factor`. */
  lemma NextAttempt(attempt: int, baseMs: int, factor: int)
    requires attempt >= 1
    ensures BackoffDelay(attempt + 1, baseMs, factor) == factor * BackoffDelay(attempt, baseMs, factor)
  {
    var p := Pow(factor, Exponent(attempt));
    assert Pow(factor, Exponent(attempt + 1)) == factor * p;
    assert baseMs * (factor * p) == factor * (baseMs * p);
  }

  /** For `factor >= 1` (and a non-negative base) the delay never shrinks as attempts grow. */
  lemma {:induction false} Monotone(a: int, b: int, baseMs: int, factor: int)
    requires a <= b
    requires baseMs >= 0 && factor >= 1
    ensures BackoffDelay(a, baseMs, factor) <= BackoffDelay(b, baseMs, factor)
  {
    if b <= 1 {
    } else if a < b {
      Monotone(a, b - 1, baseMs, factor);
      var d := BackoffDelay(b - 1, baseMs, factor);
      if b - 1 >= 1 {
        NextAttempt(b - 1, baseMs, factor);
        assert factor * d >= d;
      }
    }
  }

  /** With factor 1 every attempt waits `baseMs`. */
  lemma {:induction false} ConstantFactor(attempt: int, baseMs: int)
    ensures BackoffDelay(attempt, baseMs, 1) == baseMs
  {
    PowOne(Exponent(attempt));
  }

  lemma {:induction false} PowOne(e: nat)
    ensures Pow(1, e) == 1
  {
    if e > 0 {
      PowOne(e - 1);
    }
  }

  /** The defaults give 500, 1000 and 2000 ms for attempts 1, 2 and 3. */
  lemma DefaultDelays()
    ensures BackoffDelay(1, DefaultBaseMs, DefaultFactor) == 500
    ensures BackoffDelay(2, DefaultBaseMs, DefaultFactor) == 1000
    ensures BackoffDelay(3, DefaultBaseMs, DefaultFactor) == 2000
  {
  }
}
