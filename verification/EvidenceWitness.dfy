/** Runs in which the conditions of EvidenceReviewLaws come true. */
module EvidenceWitness {
  import opened Results
  import opened Reals
  import opened OrderStatistics
  import opened Collections
  import opened Distance
  import opened Detect
  import opened TraceRepository
  import opened EventRepository
  import opened EvidenceProtocol
  import opened EvidenceLaws
  import opened EvidenceReviewLaws
  import DetectionReadiness
  import DetectLaws
  import Denoise

  /** A trace with a single step, of five dB between samples 7 and 8, imported without filtering. */
  function Points(): seq<real> { seq(16, i => if i < 8 then 0.0 else 5.0) }

  const ROUTE := Route(200.0, 1.5)
  const LINE := Line(100.0, 1.5, 200.0)

  function Import(): Request { ImportTrace(1, 100.0, Points(), 1, 1.0, 1) }

  const DETECT := DetectEvents(1, 0, 0.0, 0)
  const REVIEW := ReviewEvent(0, Splice, None, "checked", 8)
  const MOVE := ReviewEvent(0, Splice, Some(50.0), "measured", 9)

  // ----- the pipeline on that trace -----

  lemma SingletonWindows(points: seq<real>, i: nat)
    requires i < |points|
    ensures Denoise.Filtered(points, 0)[i] == points[i]
  {
    Denoise.FilteredAt(points, 0, i);
    assert Denoise.Window(points, 0, i) == [points[i]];
    SortSorts([points[i]]);
  }

  lemma Unfiltered(points: seq<real>)
    requires |points| >= 3
    ensures Denoise.MovingMedianSpec(points, 1) == Ok(points)
  {
    forall i | 0 <= i < |points|
      ensures Denoise.Filtered(points, 0)[i] == points[i]
    {
      SingletonWindows(points, i);
    }
    assert Denoise.Filtered(points, 0) == points;
    assert Denoise.Half(1) == 0;
  }

  lemma StepAtEight(points: seq<real>, p: Peak)
    requires points == Points() && p in PeaksUpTo(points, 1.0, 16)
    ensures p.index == 8
  {
    DetectLaws.PeaksAreExactlyTheLargeSteps(points, 1.0, 16);
    assert 0 < p.index < 16 && Abs(Delta(points, p.index)) >= 1.0;
  }

  lemma EightIsPeak(points: seq<real>)
    requires points == Points()
    ensures PeakAt(points, 8) in PeaksUpTo(points, 1.0, 16) && PeaksUpTo(points, 1.0, 16) != []
  {
    DetectLaws.PeaksAreExactlyTheLargeSteps(points, 1.0, 16);
    assert Abs(Delta(points, 8)) >= 1.0;
  }

  lemma EightSurvives(points: seq<real>)
    requires points == Points()
    ensures Candidates(points, 1.0, 1) != [] && forall p :: p in Candidates(points, 1.0, 1) ==> p.index == 8
  {
    EightIsPeak(points);
    var peaks := PeaksUpTo(points, 1.0, 16);
    MergeFromMembers(peaks[0], peaks[1..], 1);
    forall p | p in Candidates(points, 1.0, 1)
      ensures p.index == 8
    {
      assert p in peaks;
      StepAtEight(points, p);
    }
  }

  lemma Geometry()
    ensures 50.0 < Metres(8, LINE) <= 200.0 && Metres(15, LINE) >= 10.0
  {
    RoundIsNearest(Exact(8.0, LINE) * 100.0);
    RoundIsNearest(Exact(15.0, LINE) * 100.0);
  }

  /** Detection reports the step. */
  lemma StepIsDetected(points: seq<real>)
    requires points == Points()
    ensures DetectSpec(points, 1.0, 1, LINE).Ok?
    ensures var events := DetectSpec(points, 1.0, 1, LINE).value.events;
            |events| > 0 && events[0].distance == Metres(8, LINE)
  {
    EightSurvives(points);
    Geometry();
    var merged := Candidates(points, 1.0, 1);
    DetectLaws.DetectionIsTruncation(points, 1.0, 1, LINE);
    var events := DetectSpec(points, 1.0, 1, LINE).value.events;
    assert merged[0] in merged;
    assert DetectLaws.Reachable(merged, 0, LINE);
    assert |events| > 0;
    assert events[0] == EventOf(merged[0], points, Median(Tail(points)), 1.0, LINE);
  }

  lemma ImportSucceeds(routes: map<nat, Route>) returns (trace: Trace)
    requires 1 in routes && routes[1] == ROUTE
    ensures ImportOutcome(Import(), 100, routes) == Ok(trace)
    ensures trace.routeId == 1 && trace.raw == Points() && trace.sampleIntervalNS == 100.0
    ensures (trace.denoiseWindow, trace.peakThreshold, trace.mergeWindow) == (1, 1.0, 1)
  {
    Geometry();
    DetectionReadiness.ImportAcceptedIff(Import(), 100, routes);
    trace := ImportOutcome(Import(), 100, routes).value;
  }

  /** A trace as imported, whatever detections have written into it since. */
  ghost predicate Stepped(trace: Trace) {
    && trace.routeId == 1 && trace.raw == Points() && trace.sampleIntervalNS == 100.0
    && (trace.denoiseWindow, trace.peakThreshold, trace.mergeWindow) == (1, 1.0, 1)
  }

  /** The processing of a detection that falls back to what the trace stores. */
  lemma StoredParameters(trace: Trace, filtered: seq<real>, found: Detection)
    requires trace.denoiseWindow != 0 && trace.peakThreshold != 0.0 && trace.mergeWindow != 0 && |filtered| >= 16
    requires Denoise.MovingMedianSpec(trace.raw, trace.denoiseWindow) == Ok(filtered)
    requires DetectSpec(filtered, trace.peakThreshold, trace.mergeWindow, LineOf(trace, ROUTE)) == Ok(found)
    ensures DetectOutcome(DETECT, trace, ROUTE)
            == Ok(Processing(filtered, NoiseFloorSpec(filtered).value, trace.denoiseWindow, trace.peakThreshold, trace.mergeWindow, found))
  {
  }

  lemma DetectSucceeds(trace: Trace) returns (p: Processing)
    requires Stepped(trace)
    ensures DetectOutcome(DETECT, trace, ROUTE) == Ok(p) && (p.window, p.threshold, p.merge) == (1, 1.0, 1)
    ensures |p.found.events| > 0 && p.found.events[0].distance == Metres(8, LINE)
  {
    var points := Points();
    Unfiltered(points);
    StepIsDetected(points);
    var found := DetectSpec(points, 1.0, 1, LINE).value;
    StoredParameters(trace, points, found);
    p := Processing(points, NoiseFloorSpec(points).value, 1, 1.0, 1, found);
  }

  // ----- single steps -----

  ghost predicate Reached(s: State) { Reaches(Initial(0, 100), s) }

  lemma Go(s: State, step: Step) returns (t: State)
    requires Reached(s)
    ensures Reached(t) && t == Next(s, step)
  {
    ReachesNext(Initial(0, 100), s, step);
    t := Next(s, step);
  }

  ghost predicate In(s: State, c: nat, request: Request, phase: Phase) {
    c in s.calls && s.calls[c] == Call(request, phase)
  }

  /** The route and the trace are stored. */
  ghost predicate Stored(s: State) {
    && 1 in s.routes && s.routes[1] == ROUTE
    && 1 in s.traces && Stepped(s.traces[1])
  }

  lemma ImportReady() returns (s: State, trace: Trace)
    ensures Reached(s) && In(s, 1, Import(), AtInsert(trace)) && Stepped(trace)
    ensures 1 in s.routes && s.routes[1] == ROUTE && s.traces == map[] && s.markers == map[] && s.nextMarker == 0
    ensures forall c :: c in s.calls ==> c == 1
  {
    ReachesItself(Initial(0, 100));
    s := Go(Initial(0, 100), PutRoute(1, ROUTE));
    s := Go(s, Invoke(1, Import()));
    trace := ImportSucceeds(s.routes);
    s := Go(s, Load(1));
  }

  lemma TraceStored() returns (s: State)
    ensures Reached(s) && Stored(s) && s.markers == map[] && s.nextMarker == 0 && forall c :: c in s.calls ==> c == 1
  {
    var s0, trace := ImportReady();
    s := Go(s0, Commit(1, 1));
  }

  lemma TraceLoaded(s0: State, c: nat) returns (s: State)
    requires Reached(s0) && Stored(s0) && c !in s0.calls
    ensures Reached(s) && s == s0.(calls := s0.calls[c := Call(DETECT, TraceRead(s0.traces[1]))])
  {
    s := Go(s0, Invoke(c, DETECT));
    s := Go(s, Load(c));
    assert s.calls == s0.calls[c := Call(DETECT, TraceRead(s0.traces[1]))];
  }

  lemma DetectionPrepared(s0: State, c: nat, trace: Trace, p: Processing) returns (s: State)
    requires Reached(s0) && In(s0, c, DETECT, TraceRead(trace)) && 1 in s0.routes && s0.routes[1] == ROUTE && trace.routeId == 1
    requires AfterDetection(DETECT, trace, s0.routes) == AtReplace(p, ROUTE)
    ensures Reached(s) && s == s0.(calls := s0.calls[c := Call(DETECT, AtReplace(p, ROUTE))])
  {
    s := Go(s0, Prepare(c));
  }

  /** A detection call about to commit. */
  lemma DetectionReady(s0: State, c: nat) returns (s: State, p: Processing)
    requires Reached(s0) && Stored(s0) && c !in s0.calls
    ensures Reached(s) && s == s0.(calls := s0.calls[c := Call(DETECT, AtReplace(p, ROUTE))])
    ensures (p.window, p.threshold, p.merge) == (1, 1.0, 1)
    ensures |p.found.events| > 0 && p.found.events[0].distance == Metres(8, LINE)
  {
    p := DetectSucceeds(s0.traces[1]);
    var s1 := TraceLoaded(s0, c);
    s := DetectionPrepared(s1, c, s0.traces[1], p);
    assert s.calls == s0.calls[c := Call(DETECT, AtReplace(p, ROUTE))];
  }

  /** The first detection has committed: marker 0 shows the step, unreviewed. */
  ghost predicate Detected(s: State) {
    && Stored(s) && 1 in s.detections && s.detections[1].route == ROUTE
    && s.detections[1].first == 0 && |s.detections[1].events| > 0
    && 0 in s.markers && s.markers[0].traceId == 1
  }

  lemma DetectionCommitted(s0: State, p: Processing) returns (s: State)
    requires Reached(s0) && Stored(s0) && s0.markers == map[] && s0.nextMarker == 0
    requires In(s0, 2, DETECT, AtReplace(p, ROUTE)) && (p.window, p.threshold, p.merge) == (1, 1.0, 1)
    requires |p.found.events| > 0 && p.found.events[0].distance == Metres(8, LINE)
    ensures Reached(s) && Detected(s) && s.calls == s0.calls[2 := Call(DETECT, Finished)]
    ensures s.markers[0].distance == Metres(8, LINE) && s.clock == s0.clock
  {
    s := Go(s0, Commit(2, 0));
    StepMovesMarkers(s0, Commit(2, 0));
    ReplacedRows(s0.markers, 0, 1, p.found.events, 0);
    assert Kept(s0.markers, 1) == map[];
  }

  lemma FirstDetection() returns (s: State)
    ensures Reached(s) && Detected(s) && s.markers[0].distance == Metres(8, LINE)
    ensures forall c :: c in s.calls ==> c <= 2
  {
    var s0 := TraceStored();
    var s1, p := DetectionReady(s0, 2);
    s := DetectionCommitted(s1, p);
  }

  lemma ReviewLoaded(s0: State, c: nat, request: Request) returns (s: State)
    requires Reached(s0) && Detected(s0) && c !in s0.calls && (request == REVIEW || request == MOVE)
    ensures Reached(s) && s == s0.(calls := s0.calls[c := Call(request, MarkerRead(s0.markers[0]))])
  {
    s := Go(s0, Invoke(c, request));
    s := Go(s, Load(c));
    assert s.calls == s0.calls[c := Call(request, MarkerRead(s0.markers[0]))];
  }

  lemma ReviewPrepared(s0: State, c: nat, request: Request, copy: Marker) returns (s: State)
    requires Reached(s0) && Detected(s0) && In(s0, c, request, MarkerRead(copy)) && (request == REVIEW || request == MOVE)
    requires copy.traceId == 1 && copy.distance == Metres(8, LINE)
    ensures Reached(s) && s == s0.(calls := s0.calls[c := Call(request, AtRevise(RevisedDistance(request, copy), s0.clock))])
  {
    Geometry();
    s := Go(s0, Prepare(c));
    assert s.calls == s0.calls[c := Call(request, AtRevise(RevisedDistance(request, copy), s0.clock))];
  }

  lemma ReviewCommitted(s0: State, c: nat, request: Request, distance: real, at: int) returns (s: State)
    requires Reached(s0) && Detected(s0) && In(s0, c, request, AtRevise(distance, at)) && (request == REVIEW || request == MOVE)
    ensures Reached(s) && s == Next(s0, Commit(c, 0)) && Detected(s)
    ensures s.markers[0].reviewed && s.markers[0].distance == distance
    ensures s.calls == s0.calls[c := Call(request, Finished)]
    ensures s.detections == s0.detections && s.traces == s0.traces && s.routes == s0.routes
  {
    s := Go(s0, Commit(c, 0));
  }

  // ----- an event recorded twice -----

  /** Two markers record the first event of the last detection, one of them reviewed. */
  ghost predicate RecordsTwice(s: State) {
    && 1 in s.detections && |s.detections[1].events| > 0
    && exists a, b :: a in s.markers && b in s.markers && a != b && s.markers[a].reviewed && !s.markers[b].reviewed
         && RecordsEvent(s.markers[a], 1, s.detections[1].events[0]) && RecordsEvent(s.markers[b], 1, s.detections[1].events[0])
  }

  lemma Reviewed() returns (s: State)
    ensures Reached(s) && Detected(s) && s.markers[0].reviewed && forall c :: c in s.calls ==> c <= 3
  {
    var s0 := FirstDetection();
    var s1 := ReviewLoaded(s0, 3, REVIEW);
    var s2 := ReviewPrepared(s1, 3, REVIEW, s0.markers[0]);
    s := ReviewCommitted(s2, 3, REVIEW, s0.markers[0].distance, s1.clock);
  }

  lemma ReviewedIsRepeated() returns (s: State)
    ensures Reached(s) && RepeatsLast(s, 4) && s.calls[4].request == DETECT
    ensures s.detections[1].first == 0 && |s.detections[1].events| > 0 && 0 in s.markers && s.markers[0].reviewed
  {
    var s0 := Reviewed();
    var p;
    s, p := DetectionReady(s0, 4);
  }

  /** Import, detect, review, detect again: then the event is recorded twice. */
  lemma ReviewedEventIsRecordedTwice()
    ensures exists s: State :: Reached(s) && RecordsTwice(s)
  {
    var s := ReviewedIsRepeated();
    var steps: seq<Step> :| Exec(Initial(0, 100), steps) == s;
    RedetectionRecordsReviewedEventTwice(0, 100, steps, 4, 0);
    CallsSound(0, 100, steps, 4);
    EveryDetectionReproduces(0, 100, steps, 1);
    MarkersSoundInEveryRun(0, 100, steps);
    SoundIsBelow(s.markers, s.nextMarker, s.detections);
    var after := Go(s, Commit(4, 0));
    ReviewedStays(s, after);
  }

  lemma ReviewedStays(s: State, after: State)
    requires RepeatsLast(s, 4) && s.calls[4].request == DETECT && after == Next(s, Commit(4, 0))
    requires CallSound(s, 4) && DetectionSound(s, 1) && Below(s.markers, s.nextMarker)
    requires |s.detections[1].events| > 0 && s.detections[1].first == 0 && 0 in s.markers && s.markers[0].reviewed
    requires TwiceIfReviewed(s, 1, 0, after.markers)
    ensures RecordsTwice(after)
  {
    RepeatedOutcome(s.calls[4].phase.processing, s.traces[1], s.detections[1]);
    StepMovesMarkers(s, Commit(4, 0));
    ReplacedRows(s.markers, s.nextMarker, 1, s.detections[1].events, 0);
    assert after.detections[1].events == s.detections[1].events;
    assert 0 in after.markers && s.nextMarker in after.markers && s.nextMarker != 0;
  }

  // ----- a measured distance lost -----

  /** Call 3, which names no distance, is about to replace the distance that somebody else has set by the one it read. */
  ghost predicate LosesDistance(s: State) {
    && 3 in s.calls && Revising(s.calls[3]) && NamesNoDistance(s.calls[3].request)
    && var id := s.calls[3].request.markerId;
       && id in s.markers && s.markers[id].reviewed
       && id in Next(s, Commit(3, 0)).markers && Next(s, Commit(3, 0)).markers[id].distance != s.markers[id].distance
  }

  lemma TwoReviews() returns (s: State)
    ensures Reached(s) && Detected(s) && s.markers[0].reviewed && s.markers[0].distance == 50.0
    ensures exists at: int :: In(s, 3, REVIEW, AtRevise(Metres(8, LINE), at))
  {
    var s0 := FirstDetection();
    var s1 := ReviewLoaded(s0, 3, REVIEW);
    var s2 := ReviewPrepared(s1, 3, REVIEW, s0.markers[0]);
    var s3 := ReviewLoaded(s2, 4, MOVE);
    var s4 := ReviewPrepared(s3, 4, MOVE, s0.markers[0]);
    s := ReviewCommitted(s4, 4, MOVE, 50.0, s3.clock);
    assert In(s, 3, REVIEW, AtRevise(Metres(8, LINE), s1.clock));
  }

  /** One review reads the marker, another sets a measured distance, and the first one puts the old one back. */
  lemma EarlierReadLosesDistance()
    ensures exists s: State :: Reached(s) && LosesDistance(s)
  {
    var s := TwoReviews();
    Geometry();
    ReviseWritesDistance(s, 3);
    assert LosesDistance(s);
  }
}
