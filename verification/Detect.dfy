/** algorithm/detect.go: noise floor, derivative peaks, peak merging, classification, detection. */
module Detect {
  import opened Results
  import opened Reals
  import opened OrderStatistics
  import opened Distance
  import Denoise

  datatype Peak = Peak(index: int, magnitude: real, direction: real)

  datatype EventType = Connector | Splice | Bend | Break | End | Unknown

  datatype DetectedEvent = DetectedEvent(
    index: int, distance: real, eventType: EventType, insertionLoss: real, reflectance: real, confidence: real)

  datatype Detection = Detection(events: seq<DetectedEvent>, rejected: nat)

  // ----- noise floor -----

  /** The last fifth of the trace. */
  function Tail(points: seq<real>): (t: seq<real>)
    ensures points != [] ==> t != []
  {
    points[|points| * 4 / 5..]
  }

  function NoiseFloorSpec(points: seq<real>): Result<real> {
    if |points| < 16 then Err("at least 16 samples are required for noise estimation")
    else Ok(Median(Tail(points)))
  }

  /** The median of the samples from four fifths of the trace on. */
  ghost predicate IsNoiseFloor(noise: real, points: seq<real>) {
    IsMedianOf(noise, points[4 * |points| / 5..])
  }

  lemma TailIsLastFifth(points: seq<real>)
    requires |points| >= 16
    ensures Tail(points) == points[4 * |points| / 5..]
  {
  }

  lemma MedianIsFloor(points: seq<real>, tail: seq<real>, noise: real)
    requires |points| >= 16 && tail == points[4 * |points| / 5..] && IsMedianOf(noise, tail)
    ensures IsNoiseFloor(noise, points)
  {
  }

  lemma NoiseFloorIs(points: seq<real>)
    requires |points| >= 16
    ensures NoiseFloorSpec(points).Ok? && IsNoiseFloor(NoiseFloorSpec(points).value, points)
  {
    TailIsLastFifth(points);
    MedianIsMiddle(Tail(points));
    MedianIsFloor(points, Tail(points), Median(Tail(points)));
  }

  method EstimateNoiseFloor(points: seq<real>) returns (r: Result<real>)
    ensures r == NoiseFloorSpec(points)
    ensures r.Ok? <==> |points| >= 16
    ensures r.Ok? ==> IsNoiseFloor(r.value, points)
  {
    if |points| < 16 {
      return Err("at least 16 samples are required for noise estimation");
    }
    NoiseFloorIs(points);
    var start := |points| * 4 / 5;
    var tail := Denoise.CopyOf(points[start..]);
    var noise := Denoise.MedianInPlace(tail);
    return Ok(noise);
  }

  // ----- peaks -----

  function Delta(points: seq<real>, i: int): real
    requires 0 < i < |points|
  {
    points[i] - points[i - 1]
  }

  function PeakAt(points: seq<real>, i: int): Peak
    requires 0 < i < |points|
  {
    Peak(i, Abs(Delta(points, i)), if Delta(points, i) < 0.0 then -1.0 else 1.0)
  }

  function PeaksUpTo(points: seq<real>, threshold: real, n: nat): seq<Peak>
    requires n <= |points|
  {
    if n <= 1 then []
    else PeaksUpTo(points, threshold, n - 1)
         + if Abs(Delta(points, n - 1)) >= threshold then [PeakAt(points, n - 1)] else []
  }

  function PeaksSpec(points: seq<real>, threshold: real): Result<seq<Peak>> {
    if |points| < 3 then Err("at least three samples are required")
    else if threshold <= 0.0 then Err("threshold must be positive")
    else Ok(PeaksUpTo(points, threshold, |points|))
  }

  method DerivativePeaks(points: seq<real>, threshold: real) returns (r: Result<seq<Peak>>)
    ensures r == PeaksSpec(points, threshold)
  {
    if |points| < 3 {
      return Err("at least three samples are required");
    }
    if threshold <= 0.0 {
      return Err("threshold must be positive");
    }
    var peaks := [];
    for i := 1 to |points|
      invariant peaks == PeaksUpTo(points, threshold, i)
    {
      var delta := points[i] - points[i - 1];
      if Abs(delta) >= threshold {
        peaks := peaks + [Peak(i, Abs(delta), if delta < 0.0 then -1.0 else 1.0)];
      }
    }
    return Ok(peaks);
  }

  // ----- merging -----

  function MergeFrom(current: Peak, rest: seq<Peak>, window: int): (merged: seq<Peak>)
    ensures merged != []
    decreases |rest|
  {
    if rest == [] then [current]
    else if rest[0].index - current.index <= window then
      MergeFrom(if rest[0].magnitude > current.magnitude then rest[0] else current, rest[1..], window)
    else [current] + MergeFrom(rest[0], rest[1..], window)
  }

  function Merge(peaks: seq<Peak>, window: int): seq<Peak> {
    if peaks == [] then [] else MergeFrom(peaks[0], peaks[1..], window)
  }

  function MergeSpec(peaks: seq<Peak>, window: int): Result<seq<Peak>> {
    if window < 1 then Err("merge window must be positive") else Ok(Merge(peaks, window))
  }

  method MergePeaks(peaks: seq<Peak>, window: int) returns (r: Result<seq<Peak>>)
    ensures r == MergeSpec(peaks, window)
  {
    if window < 1 {
      return Err("merge window must be positive");
    }
    if |peaks| == 0 {
      return Ok([]);
    }
    var merged := [];
    var current := peaks[0];
    for i := 1 to |peaks|
      invariant merged + MergeFrom(current, peaks[i..], window) == Merge(peaks, window)
    {
      var peak := peaks[i];
      assert peaks[i..][0] == peak && peaks[i..][1..] == peaks[i + 1..];
      if peak.index - current.index <= window {
        if peak.magnitude > current.magnitude {
          current := peak;
        }
        continue;
      }
      merged := merged + [current];
      current := peak;
    }
    return Ok(merged + [current]);
  }

  // ----- classification -----

  function EventTypeOf(peak: Peak, samples: nat, threshold: real): EventType {
    if peak.index >= samples - 3 then End
    else if peak.direction < 0.0 && peak.magnitude < threshold * 1.5 then Bend
    else if peak.direction < 0.0 && peak.magnitude >= threshold * 2.5 then Break
    else if peak.direction > 0.0 && peak.magnitude >= threshold * 1.5 then Connector
    else Splice
  }

  function ConfidenceOf(magnitude: real, threshold: real): real
    requires threshold > 0.0
  {
    Round3(Min(0.99, 0.5 + magnitude / (threshold * 10.0)))
  }

  /** The event a peak is reported as. */
  function EventOf(peak: Peak, points: seq<real>, noise: real, threshold: real, line: Line): DetectedEvent
    requires 0 < peak.index < |points| && threshold > 0.0 && line.Convertible()
  {
    var before, after := points[peak.index - 1], points[peak.index];
    DetectedEvent(
      peak.index,
      Metres(peak.index, line),
      EventTypeOf(peak, |points|, threshold),
      Round3(Max(0.0, before - after)),
      Round3(Min(before, after) - noise),
      ConfidenceOf(peak.magnitude, threshold))
  }

  /** ClassifyPeak, in the source's order: each later test overrides the type chosen before it. */
  method ClassifyPeak(peak: Peak, points: seq<real>, noise: real, threshold: real)
    returns (eventType: EventType, loss: real, reflectance: real, confidence: real)
    requires 0 < peak.index < |points| && threshold > 0.0
    ensures forall line: Line | line.Convertible() ::
              EventOf(peak, points, noise, threshold, line)
              == DetectedEvent(peak.index, Metres(peak.index, line), eventType, loss, reflectance, confidence)
  {
    var before, after := points[peak.index - 1], points[peak.index];
    loss := Max(0.0, before - after);
    reflectance := Min(before, after) - noise;
    eventType := Splice;
    if peak.direction > 0.0 && peak.magnitude >= threshold * 1.5 {
      eventType := Connector;
    }
    if peak.direction < 0.0 && peak.magnitude >= threshold * 2.5 {
      eventType := Break;
    }
    if peak.direction < 0.0 && peak.magnitude < threshold * 1.5 {
      eventType := Bend;
    }
    if peak.index >= |points| - 3 {
      eventType := End;
    }
    confidence := Min(0.99, 0.5 + peak.magnitude / (threshold * 10.0));
    loss, reflectance, confidence := Round3(loss), Round3(reflectance), Round3(confidence);
  }

  // ----- detection -----

  ghost predicate InTrace(peaks: seq<Peak>, samples: nat) {
    forall i :: 0 <= i < |peaks| ==> 0 < peaks[i].index < samples
  }

  function EventsUpTo(peaks: seq<Peak>, n: nat, points: seq<real>, noise: real, threshold: real, line: Line): seq<DetectedEvent>
    requires n <= |peaks| && InTrace(peaks, |points|) && threshold > 0.0 && line.Convertible()
  {
    if n == 0 then []
    else EventsUpTo(peaks, n - 1, points, noise, threshold, line)
         + if ValidRouteDistance(Metres(peaks[n - 1].index, line), line.routeLength)
           then [EventOf(peaks[n - 1], points, noise, threshold, line)] else []
  }

  lemma {:induction false} PeaksInTrace(points: seq<real>, threshold: real, n: nat)
    requires n <= |points|
    ensures InTrace(PeaksUpTo(points, threshold, n), |points|)
    ensures forall i :: 0 <= i < |PeaksUpTo(points, threshold, n)| ==> PeaksUpTo(points, threshold, n)[i].index < n
  {
    if n > 1 {
      PeaksInTrace(points, threshold, n - 1);
    }
  }

  lemma {:induction false} MergeFromMembers(current: Peak, rest: seq<Peak>, window: int)
    ensures forall i :: 0 <= i < |MergeFrom(current, rest, window)| ==>
              MergeFrom(current, rest, window)[i] == current || MergeFrom(current, rest, window)[i] in rest
    decreases |rest|
  {
    if rest != [] {
      MergeFromMembers(if rest[0].magnitude > current.magnitude then rest[0] else current, rest[1..], window);
      MergeFromMembers(rest[0], rest[1..], window);
    }
  }

  /** The merged peaks that Detect reports or rejects. */
  ghost function Candidates(points: seq<real>, threshold: real, window: int): (merged: seq<Peak>)
    ensures InTrace(merged, |points|)
  {
    var peaks := PeaksUpTo(points, threshold, |points|);
    PeaksInTrace(points, threshold, |points|);
    if peaks != [] then MergeFromMembers(peaks[0], peaks[1..], window); Merge(peaks, window) else []
  }

  ghost function DetectSpec(points: seq<real>, threshold: real, mergeWindow: int, line: Line): Result<Detection> {
    if |points| < 16 then Err("at least 16 samples are required for noise estimation")
    else if threshold <= 0.0 then Err("threshold must be positive")
    else if mergeWindow < 1 then Err("merge window must be positive")
    else
      var merged := Candidates(points, threshold, mergeWindow);
      if merged != [] && !line.Convertible() then Err(SampleDistance(merged[0].index, line).error)
      else if merged == [] then Ok(Detection([], 0))
      else
        var events := EventsUpTo(merged, |merged|, points, Median(Tail(points)), threshold, line);
        EventsFew(merged, |merged|, points, Median(Tail(points)), threshold, line);
        Ok(Detection(events, |merged| - |events|))
  }

  lemma {:induction false} EventsFew(peaks: seq<Peak>, n: nat, points: seq<real>, noise: real, threshold: real, line: Line)
    requires n <= |peaks| && InTrace(peaks, |points|) && threshold > 0.0 && line.Convertible()
    ensures |EventsUpTo(peaks, n, points, noise, threshold, line)| <= n
  {
    if n > 0 {
      EventsFew(peaks, n - 1, points, noise, threshold, line);
    }
  }

  /** Detect's loop. */
  method Report(peaks: seq<Peak>, points: seq<real>, noise: real, threshold: real, line: Line) returns (r: Result<Detection>)
    requires InTrace(peaks, |points|) && threshold > 0.0
    ensures peaks != [] && !line.Convertible() ==> r == Err(SampleDistance(peaks[0].index, line).error)
    ensures peaks == [] ==> r == Ok(Detection([], 0))
    ensures peaks != [] && line.Convertible() ==>
              var events := EventsUpTo(peaks, |peaks|, points, noise, threshold, line);
              |events| <= |peaks| && r == Ok(Detection(events, |peaks| - |events|))
  {
    var events, rejected := [], 0;
    for i := 0 to |peaks|
      invariant i > 0 ==> line.Convertible()
      invariant line.Convertible() ==> events == EventsUpTo(peaks, i, points, noise, threshold, line)
      invariant |events| + rejected == i
    {
      var peak := peaks[i];
      var distance :- SampleDistance(peak.index, line);
      if !ValidRouteDistance(distance, line.routeLength) {
        rejected := rejected + 1;
        continue;
      }
      var eventType, loss, reflectance, confidence := ClassifyPeak(peak, points, noise, threshold);
      events := events + [DetectedEvent(peak.index, distance, eventType, loss, reflectance, confidence)];
    }
    return Ok(Detection(events, rejected));
  }

  /** Detect's steps before its loop: the noise floor and the merged peaks, or the first error. */
  method FindPeaks(points: seq<real>, threshold: real, mergeWindow: int) returns (r: Result<(real, seq<Peak>)>)
    ensures r ==
            if |points| < 16 then Err("at least 16 samples are required for noise estimation")
            else if threshold <= 0.0 then Err("threshold must be positive")
            else if mergeWindow < 1 then Err("merge window must be positive")
            else Ok((Median(Tail(points)), Candidates(points, threshold, mergeWindow)))
  {
    var noise :- EstimateNoiseFloor(points);
    var found :- DerivativePeaks(points, threshold);
    var peaks :- MergePeaks(found, mergeWindow);
    return Ok((noise, peaks));
  }

  method Detect(points: seq<real>, threshold: real, mergeWindow: int, line: Line) returns (r: Result<Detection>)
    ensures r == DetectSpec(points, threshold, mergeWindow, line)
  {
    var found :- FindPeaks(points, threshold, mergeWindow);
    r := Report(found.1, points, found.0, threshold, line);
  }
}
