/** Exact-real counterparts of the functions of Go's math package that the algorithms call. */
module Reals {

  function Abs(x: real): real { if x < 0.0 then -x else x }

  function Min(x: real, y: real): real { if x <= y then x else y }

  function Max(x: real, y: real): real { if x >= y then x else y }

  /** math.Round: to the nearest integer, halves away from zero. */
  function Round(x: real): int {
    if x >= 0.0 then (x + 0.5).Floor else -((-x + 0.5).Floor)
  }

  /** The three-decimal rounding that detect.go applies to every reported figure. */
  function Round3(x: real): real { Round(x * 1000.0) as real / 1000.0 }

  /** The two-decimal rounding that distance.go applies to metres. */
  function Round2(x: real): real { Round(x * 100.0) as real / 100.0 }

  /** Rounding is at most one half away, and an exact half goes away from zero. */
  lemma RoundIsNearest(x: real)
    ensures Abs(Round(x) as real - x) <= 0.5
    ensures Abs(Round(x) as real - x) == 0.5 ==> Abs(Round(x) as real) > Abs(x)
  {
  }

  lemma RoundMonotone(x: real, y: real)
    requires x <= y
    ensures Round(x) <= Round(y)
  {
  }

  lemma RoundOfInteger(n: int)
    ensures Round(n as real) == n
  {
    if n >= 0 {
      assert (n as real + 0.5).Floor == n;
    } else {
      assert (-(n as real) + 0.5).Floor == -n;
    }
  }

  /** A value between two three-decimal bounds stays between them when rounded. */
  lemma Round3Within(lo: int, x: real, hi: int)
    requires lo as real / 1000.0 <= x <= hi as real / 1000.0
    ensures lo as real / 1000.0 <= Round3(x) <= hi as real / 1000.0
  {
    RoundMonotone(lo as real, x * 1000.0);
    RoundMonotone(x * 1000.0, hi as real);
    RoundOfInteger(lo);
    RoundOfInteger(hi);
  }

  /** The three-decimal rounding is to a whole number of thousandths, at most half of one away. */
  lemma Round3IsNearest(x: real)
    ensures Abs(Round3(x) - x) <= 0.0005
    ensures Round3(x) * 1000.0 == (Round3(x) * 1000.0).Floor as real
  {
    RoundIsNearest(x * 1000.0);
    assert Round3(x) * 1000.0 == Round(x * 1000.0) as real;
  }
}
