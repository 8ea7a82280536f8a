/** Angle arithmetic shared by the segments, the legs and the body. */
module Angles {

  /** `Math.PI`: the double nearest to pi, written as the shortest decimal that
      denotes it. It is a fixed rational here, so whole turns stay linear. */
  const PI: real := 3.141592653589793

  /** The number of whole turns the wrap step removes from `a` when the window
      is centred on `c`: `Math.floor((a - c) / 2 / Math.PI + 1 / 2)`. */
  function Turns(a: real, c: real): int
  {
    ((a - c) / 2.0 / PI + 0.5).Floor
  }

  /** The wrap step: `a` moved by a whole number of turns into the half-open
      window of width 2*PI centred on `c`. */
  function Wrap(a: real, c: real): (r: real)
    ensures c - PI <= r < c + PI
    ensures r == a - 2.0 * PI * Turns(a, c) as real
  {
    a - 2.0 * PI * Turns(a, c) as real
  }

  /** Wrap picks the only value in the window that differs from `a` by whole turns. */
  lemma WrapUnique(a: real, c: real, k: int)
    requires c - PI <= a - 2.0 * PI * k as real < c + PI
    ensures Turns(a, c) == k
    ensures Wrap(a, c) == a - 2.0 * PI * k as real
  {
    var t := (a - c) / 2.0 / PI + 0.5;
    assert t == (a - c - 2.0 * PI * k as real) / (2.0 * PI) + k as real + 0.5;
    assert k as real <= t < k as real + 1.0;
  }

  /** An angle already in the window is left as it is, so wrapping twice is wrapping once. */
  lemma WrapIdempotent(a: real, c: real)
    ensures Wrap(Wrap(a, c), c) == Wrap(a, c)
  {
    WrapUnique(Wrap(a, c), c, 0);
  }

  /** Wrapping only depends on `a` up to whole turns. */
  lemma WrapPeriodic(a: real, c: real, n: int)
    ensures Wrap(a + 2.0 * PI * n as real, c) == Wrap(a, c)
  {
    var k := Turns(a, c);
    WrapUnique(a + 2.0 * PI * n as real, c, k + n);
  }

  /** `Math.min(hi, Math.max(lo, v))`. */
  function Clamp(lo: real, hi: real, v: real): (r: real)
    ensures lo <= hi ==> lo <= r <= hi
    ensures lo <= v <= hi ==> r == v
    ensures lo <= hi && v < lo ==> r == lo
    ensures lo <= hi && hi < v ==> r == hi
    ensures hi < lo ==> r == hi
  {
    var atLeast := if lo < v then v else lo;
    if atLeast < hi then atLeast else hi
  }
}
