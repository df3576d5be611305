/** algorithm/distance.go: from sample index to metres along the fibre. */
module Distance {
  import opened Results
  import opened Reals

  const VACUUM_SPEED_M_PER_SECOND := 299792458.0

  /** What a route and a capture contribute to the conversion, and where the route ends. */
  datatype Line = Line(sampleIntervalNS: real, refractiveIndex: real, routeLength: real) {
    predicate Convertible() {
      sampleIntervalNS > 0.0 && 1.3 <= refractiveIndex <= 1.7
    }
  }

  /** Half the round trip of light in glass after the given number of sample intervals. */
  function Exact(samples: real, line: Line): real
    requires line.Convertible()
  {
    VACUUM_SPEED_M_PER_SECOND * (samples * line.sampleIntervalNS * 0.000000001) / (2.0 * line.refractiveIndex)
  }

  /** The unrounded distance of one sample step. */
  function ExactStep(line: Line): real
    requires line.Convertible()
  {
    Exact(1.0, line)
  }

  function Metres(index: int, line: Line): real
    requires line.Convertible()
  {
    Round2(Exact(index as real, line))
  }

  function SampleDistance(index: int, line: Line): (r: Result<real>)
    ensures r.Ok? <==> index >= 0 && line.Convertible()
  {
    if index < 0 then Err("sample index cannot be negative")
    else if line.sampleIntervalNS <= 0.0 then Err("sample interval must be positive")
    else if line.refractiveIndex < 1.3 || line.refractiveIndex > 1.7 then Err("refractive index outside 1.3-1.7")
    else Ok(Metres(index, line))
  }

  predicate ValidRouteDistance(distance: real, routeLength: real) {
    distance >= 0.0 && distance <= routeLength
  }

  lemma ProductOverQuotient(i: real, y: real, z: real)
    requires z > 0.0
    ensures i * y / z == i * (y / z)
  {
  }

  lemma Regroup(i: real, c: real, t: real, k: real)
    ensures c * (i * t * k) == i * (c * (t * k))
  {
    assert i * t * k == i * (t * k);
    assert c * (i * (t * k)) == i * (c * (t * k));
  }

  /** The exact distance is linear in the sample index, and a step is positive. */
  lemma ExactIsLinear(samples: real, line: Line)
    requires line.Convertible()
    ensures Exact(samples, line) == samples * ExactStep(line)
    ensures ExactStep(line) > 0.0
  {
    var c, t, k, z := VACUUM_SPEED_M_PER_SECOND, line.sampleIntervalNS, 0.000000001, 2.0 * line.refractiveIndex;
    Regroup(samples, c, t, k);
    ProductOverQuotient(samples, c * (t * k), z);
    assert 1.0 * t == t;
  }

  lemma RoundedGap(x: real, y: real)
    requires x <= y
    ensures Round2(x) <= Round2(y)
    ensures Round2(y) - Round2(x) >= y - x - 0.01
  {
    RoundMonotone(x * 100.0, y * 100.0);
    RoundIsNearest(x * 100.0);
    RoundIsNearest(y * 100.0);
  }

  lemma MultipleMonotone(a: real, b: real, step: real)
    requires a <= b && step > 0.0
    ensures a * step <= b * step && b * step - a * step == (b - a) * step
  {
  }

  /** Later samples never report a shorter distance, and rounding loses at most a centimetre of the gap. */
  lemma MetresGrow(a: int, b: int, line: Line)
    requires line.Convertible() && a <= b
    ensures Metres(a, line) <= Metres(b, line) && ExactStep(line) > 0.0
    ensures Metres(b, line) - Metres(a, line) >= (b - a) as real * ExactStep(line) - 0.01
  {
    ExactIsLinear(a as real, line);
    ExactIsLinear(b as real, line);
    MultipleMonotone(a as real, b as real, ExactStep(line));
    RoundedGap(Exact(a as real, line), Exact(b as real, line));
    assert (b - a) as real == b as real - a as real;
  }

  lemma MetresNonNegative(index: int, line: Line)
    requires line.Convertible() && index >= 0
    ensures Metres(index, line) >= 0.0
  {
    MetresGrow(0, index, line);
    ExactIsLinear(0.0, line);
    RoundOfInteger(0);
  }

  /** A returned distance is a whole number of centimetres, at most half a centimetre off the exact one. */
  lemma DistanceToTheCentimetre(index: int, line: Line)
    requires SampleDistance(index, line).Ok?
    ensures Abs(SampleDistance(index, line).value - index as real * ExactStep(line)) <= 0.005
    ensures SampleDistance(index, line).value * 100.0 == Round(SampleDistance(index, line).value * 100.0) as real
  {
    var hundredths := Exact(index as real, line) * 100.0;
    ExactIsLinear(index as real, line);
    RoundIsNearest(hundredths);
    RoundOfInteger(Round(hundredths));
    assert SampleDistance(index, line).value * 100.0 == Round(hundredths) as real;
  }

  lemma ScaledWithin(z: real, x: real, y: real, e: real)
    requires z > 0.0 && Abs(x - y) <= e
    ensures Abs(z * x - z * y) <= z * e
  {
    assert z * x - z * y == z * (x - y);
  }

  lemma QuotientTimes(x: real, z: real)
    requires z > 0.0
    ensures z * (x / z) == x
  {
  }

  lemma Reassociate(c: real, i: real, t: real, k: real)
    ensures c * (i * t * k) == c * i * t * k
  {
  }

  /**
   Twice the index of refraction times the distance is the way light goes in the given number of
   sampling intervals, up to half a centimetre of distance; and the distance is in whole centimetres.
   */
  ghost predicate IsHalfRoundTrip(d: real, index: int, line: Line) {
    && Abs(2.0 * line.refractiveIndex * d - 299792458.0 * index as real * line.sampleIntervalNS * 0.000000001)
       <= 2.0 * line.refractiveIndex * 0.005
    && d * 100.0 == (d * 100.0).Floor as real
  }

  lemma WayWithin(n: real, d: real, exact: real, way: real)
    requires n > 0.0 && Abs(d - exact) <= 0.005 && 2.0 * n * exact == way
    ensures Abs(2.0 * n * d - way) <= 2.0 * n * 0.005
  {
    ScaledWithin(2.0 * n, d, exact, 0.005);
  }

  lemma ExactWay(i: real, line: Line)
    requires line.Convertible()
    ensures 2.0 * line.refractiveIndex * Exact(i, line) == 299792458.0 * i * line.sampleIntervalNS * 0.000000001
  {
    QuotientTimes(299792458.0 * (i * line.sampleIntervalNS * 0.000000001), 2.0 * line.refractiveIndex);
    Reassociate(299792458.0, i, line.sampleIntervalNS, 0.000000001);
  }

  lemma MetresRounded(index: int, line: Line)
    requires line.Convertible()
    ensures Abs(Metres(index, line) - Exact(index as real, line)) <= 0.005
    ensures Metres(index, line) * 100.0 == (Metres(index, line) * 100.0).Floor as real
  {
    RoundedToHundredths(Exact(index as real, line));
  }

  lemma RoundedToHundredths(x: real)
    ensures Abs(Round2(x) - x) <= 0.005
    ensures Round2(x) * 100.0 == (Round2(x) * 100.0).Floor as real
  {
    RoundIsNearest(x * 100.0);
    assert Round2(x) * 100.0 == Round(x * 100.0) as real;
  }

  lemma MetresAreHalfRoundTrip(index: int, line: Line)
    requires line.Convertible()
    ensures IsHalfRoundTrip(Metres(index, line), index, line)
  {
    MetresRounded(index, line);
    ExactWay(index as real, line);
    WayWithin(line.refractiveIndex, Metres(index, line), Exact(index as real, line),
              299792458.0 * index as real * line.sampleIntervalNS * 0.000000001);
  }

  /** The distance conversion and its three errors, said without the functions that compute it. */
  lemma SampleDistanceIs(index: int, line: Line)
    ensures SampleDistance(index, line).Ok? <==> index >= 0 && line.sampleIntervalNS > 0.0 && 1.3 <= line.refractiveIndex <= 1.7
    ensures SampleDistance(index, line).Ok? ==> IsHalfRoundTrip(SampleDistance(index, line).value, index, line)
  {
    if SampleDistance(index, line).Ok? {
      MetresAreHalfRoundTrip(index, line);
    }
  }
}
