/**
 * `applyJitter` (src/utils/jitter.ts). `Math.random()` becomes the explicit
 * draw `r`, a real in [0, 1).
 */
module Jitter {

  datatype JitterMode = NoJitter | Full | Equal

  /** The mode used when the caller gives none. */
  const DefaultMode: JitterMode := NoJitter

  predicate IsDraw(r: real) {
    0.0 <= r < 1.0
  }

  /** `applyJitter(delayMs, mode)` with `Math.random()` returning `r`. */
  function ApplyJitter(delayMs: int, mode: JitterMode, r: real): (d: int)
    requires IsDraw(r)
    ensures mode == NoJitter ==> d == delayMs
    ensures mode == Full && delayMs > 0 ==> 0 <= d <= delayMs - 1
    ensures mode == Full && delayMs == 0 ==> d == 0
    ensures mode == Equal && delayMs >= 1 ==> delayMs / 2 <= d <= delayMs - 1
    ensures delayMs >= 0 ==> 0 <= d <= delayMs
  {
    match mode
    case NoJitter => delayMs
    case Full => FullJitter(delayMs, r)
    case Equal => EqualJitter(delayMs, r)
  }

  /** `Math.floor(Math.random() * delayMs)`. */
  function FullJitter(delayMs: int, r: real): (d: int)
    requires IsDraw(r)
    ensures delayMs > 0 ==> 0 <= d <= delayMs - 1
    ensures delayMs == 0 ==> d == 0
  {
    var x := r * delayMs as real;
    assert delayMs > 0 ==> 0 <= x.Floor <= delayMs - 1 by {
      if delayMs > 0 {
        FullBounds(delayMs, r);
        assert 0.0 <= x < delayMs as real;
        FloorWithin(x, 0, delayMs);
      }
    }
    assert delayMs == 0 ==> x.Floor == 0 by {
      if delayMs == 0 { assert x == 0.0; }
    }
    x.Floor
  }

  /** `Math.floor(half + Math.random() * half)` with `half = delayMs / 2`. */
  function EqualJitter(delayMs: int, r: real): (d: int)
    requires IsDraw(r)
    ensures delayMs >= 1 ==> delayMs / 2 <= d <= delayMs - 1
    ensures delayMs == 0 ==> d == 0
  {
    var half := delayMs as real / 2.0;
    var x := half + r * half;
    assert delayMs >= 1 ==> delayMs / 2 <= x.Floor <= delayMs - 1 by {
      if delayMs >= 1 {
        EqualBounds(delayMs, r);
        assert (delayMs / 2) as real <= x < delayMs as real;
        FloorWithin(x, delayMs / 2, delayMs);
      }
    }
    assert delayMs == 0 ==> x.Floor == 0 by {
      if delayMs == 0 { assert x == 0.0; }
    }
    x.Floor
  }

  /** `Math.floor` of a value in [lo, hi) lies in [lo, hi - 1]. */
  lemma FloorWithin(x: real, lo: int, hi: int)
    ensures lo as real <= x < hi as real ==> lo <= x.Floor <= hi - 1
  {
  }

  lemma FullBounds(delayMs: int, r: real)
    requires IsDraw(r)
    ensures delayMs >= 0 ==> 0.0 <= r * delayMs as real
    ensures delayMs > 0 ==> r * delayMs as real < delayMs as real
    ensures delayMs == 0 ==> r * delayMs as real == 0.0
  {
    if delayMs > 0 {
      assert r * delayMs as real < 1.0 * delayMs as real;
    }
  }

  lemma EqualBounds(delayMs: int, r: real)
    requires IsDraw(r)
    ensures delayMs == 0 ==>
      var half := delayMs as real / 2.0;
      half + r * half == 0.0
    ensures delayMs >= 1 ==>
      var half := delayMs as real / 2.0;
      (delayMs / 2) as real <= half + r * half < delayMs as real
  {
    var half := delayMs as real / 2.0;
    if delayMs >= 1 {
      assert r * half < 1.0 * half;
      assert (delayMs / 2) as real * 2.0 <= delayMs as real;
    }
  }

  /** Without a mode argument the delay comes back unchanged. */
  lemma DefaultIsIdentity(delayMs: int, r: real)
    requires IsDraw(r)
    ensures ApplyJitter(delayMs, DefaultMode, r) == delayMs
  {
  }

  /** Full jitter can produce every value from 0 to `delayMs - 1`. */
  lemma FullCoversRange(delayMs: int, k: int)
    requires 0 <= k < delayMs
    ensures IsDraw(k as real / delayMs as real)
    ensures ApplyJitter(delayMs, Full, k as real / delayMs as real) == k
  {
    var r := k as real / delayMs as real;
    assert r * delayMs as real == k as real;
  }
}
