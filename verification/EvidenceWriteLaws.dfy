/**
 What imports, detections and reviews compute and write, field by field: said without the
 functions from which the protocol's steps are built.
 */
module EvidenceWriteLaws {
  import opened Results
  import opened Collections
  import opened OrderStatistics
  import opened Distance
  import opened Detect
  import opened DetectLaws
  import opened TraceRepository
  import opened EventRepository
  import opened EvidenceProtocol
  import opened EvidenceLaws
  import Denoise

  // ----- what is computed -----

  /** The filtered samples and the noise floor of raw samples and a window. */
  ghost predicate IsFiltered(processed: seq<real>, noise: real, raw: seq<real>, window: int) {
    && 1 <= window <= 31 && |processed| == |raw|
    && (forall i :: 0 <= i < |raw| ==> Denoise.IsMedianAt(processed[i], raw, Denoise.OddWindow(window), i))
    && IsNoiseFloor(noise, processed)
  }

  lemma FilteredAs(raw: seq<real>, window: int, processed: seq<real>, noise: real)
    requires Denoise.MovingMedianSpec(raw, window) == Ok(processed) && NoiseFloorSpec(processed) == Ok(noise)
    ensures IsFiltered(processed, noise, raw, window)
  {
    Denoise.FilterIsMedian(raw, window);
    NoiseFloorIs(processed);
  }

  /** The parameters of an import: the request's, or 5 samples, 0.8 dB and 3 samples. */
  predicate ImportsWith(trace: Trace, request: Request)
    requires request.ImportTrace?
  {
    && trace.denoiseWindow == (if request.denoiseWindow != 0 then request.denoiseWindow else 5)
    && trace.peakThreshold == (if request.peakThreshold != 0.0 then request.peakThreshold else 0.8)
    && trace.mergeWindow == (if request.mergeWindow != 0 then request.mergeWindow else 3)
  }

  /** The trace that an import stores. */
  ghost predicate ImportedAs(trace: Trace, request: Request)
    requires request.ImportTrace?
  {
    && trace.routeId == request.routeId && trace.sampleIntervalNS == request.sampleIntervalNS && trace.raw == request.points
    && ImportsWith(trace, request)
    && (forall i :: 0 <= i < |trace.raw| ==> -200.0 <= trace.raw[i] <= 100.0)
    && IsFiltered(trace.processed, trace.noiseFloor, trace.raw, trace.denoiseWindow)
  }

  lemma ImportColumns(request: Request, maxPoints: nat, routes: map<nat, Route>)
    requires request.ImportTrace? && ImportOutcome(request, maxPoints, routes).Ok?
    ensures var trace := ImportOutcome(request, maxPoints, routes).value;
            && trace.routeId == request.routeId && trace.sampleIntervalNS == request.sampleIntervalNS && trace.raw == request.points
            && ImportsWith(trace, request)
    ensures |request.points| <= maxPoints && request.routeId in routes && InDbRange(request.points)
  {
  }

  lemma ImportIs(request: Request, maxPoints: nat, routes: map<nat, Route>)
    requires request.ImportTrace? && ImportOutcome(request, maxPoints, routes).Ok?
    ensures ImportedAs(ImportOutcome(request, maxPoints, routes).value, request)
    ensures |request.points| <= maxPoints && request.routeId in routes
  {
    ImportColumns(request, maxPoints, routes);
    ImportReplays(request, maxPoints, routes);
    ReplayedAs(ImportOutcome(request, maxPoints, routes).value, request);
  }

  lemma ReplayedAs(trace: Trace, request: Request)
    requires request.ImportTrace? && Replays(trace) && ImportsWith(trace, request) && InDbRange(request.points)
    requires trace.routeId == request.routeId && trace.sampleIntervalNS == request.sampleIntervalNS && trace.raw == request.points
    ensures ImportedAs(trace, request)
  {
    FilteredAs(trace.raw, trace.denoiseWindow, trace.processed, trace.noiseFloor);
  }

  /** The parameters of a detection: the request's, or else the trace's, or else 5 samples, 0.8 dB and 3 samples. */
  predicate DetectsWith(p: Processing, request: Request, read: Trace)
    requires request.DetectEvents?
  {
    && p.window == (if request.denoiseWindow != 0 then request.denoiseWindow else if read.denoiseWindow != 0 then read.denoiseWindow else 5)
    && p.threshold == (if request.peakThreshold != 0.0 then request.peakThreshold else if read.peakThreshold != 0.0 then read.peakThreshold else 0.8)
    && p.merge == (if request.mergeWindow != 0 then request.mergeWindow else if read.mergeWindow != 0 then read.mergeWindow else 3)
  }

  /** Every event of the detection is read off the filtered samples along the route, and lies on it. */
  ghost predicate ReadsOff(p: Processing, trace: Trace, route: Route) {
    var line := Line(trace.sampleIntervalNS, route.refractiveIndex, route.length);
    forall k :: 0 <= k < |p.found.events| ==>
      ReadsOffStep(p.found.events[k], p.processed, p.noise, p.threshold, line) && p.found.events[k].distance <= route.length
  }

  lemma EventsReadOff(p: Processing, trace: Trace, route: Route)
    requires ProcessingOf(p, trace, route)
    ensures ReadsOff(p, trace, route)
  {
    forall k | 0 <= k < |p.found.events|
      ensures ReadsOffStep(p.found.events[k], p.processed, p.noise, p.threshold, LineOf(trace, route))
      ensures p.found.events[k].distance <= route.length
    {
      EventReadsOffStep(p.processed, p.threshold, p.merge, LineOf(trace, route), k);
      EventOnRoute(p.processed, p.threshold, p.merge, LineOf(trace, route), k);
    }
  }

  lemma ParametersDetect(p: Processing, request: Request, trace: Trace)
    requires request.DetectEvents?
    requires p.window == FirstNonZero(0, request.denoiseWindow, trace.denoiseWindow, DEFAULT_WINDOW)
    requires p.threshold == FirstNonZero(0.0, request.peakThreshold, trace.peakThreshold, DEFAULT_THRESHOLD)
    requires p.merge == FirstNonZero(0, request.mergeWindow, trace.mergeWindow, DEFAULT_MERGE)
    ensures DetectsWith(p, request, trace)
  {
  }

  lemma DetectionParameters(request: Request, trace: Trace, route: Route)
    requires request.DetectEvents? && DetectOutcome(request, trace, route).Ok?
    ensures DetectsWith(DetectOutcome(request, trace, route).value, request, trace)
  {
    ParametersDetect(DetectOutcome(request, trace, route).value, request, trace);
  }

  lemma DetectionIs(request: Request, trace: Trace, route: Route)
    requires request.DetectEvents? && DetectOutcome(request, trace, route).Ok?
    ensures var p := DetectOutcome(request, trace, route).value;
            DetectsWith(p, request, trace) && IsFiltered(p.processed, p.noise, trace.raw, p.window) && ReadsOff(p, trace, route)
  {
    DetectionParameters(request, trace, route);
    DetectProcesses(request, trace, route, trace);
    ProcessedAs(DetectOutcome(request, trace, route).value, trace, route);
  }

  lemma ProcessedAs(p: Processing, trace: Trace, route: Route)
    requires ProcessingOf(p, trace, route)
    ensures IsFiltered(p.processed, p.noise, trace.raw, p.window) && ReadsOff(p, trace, route)
  {
    FilteredAs(trace.raw, p.window, p.processed, p.noise);
    EventsReadOff(p, trace, route);
  }

  // ----- what is written -----

  /** Only the five processing columns are new. */
  predicate ProcessesColumns(now: Trace, was: Trace, p: Processing) {
    now == was.(processed := p.processed, noiseFloor := p.noise, denoiseWindow := p.window, peakThreshold := p.threshold, mergeWindow := p.merge)
  }

  /** The marker of a detected event: its figures twice, once to be reviewed and once to stay; unreviewed. */
  predicate MarksEvent(m: Marker, traceId: nat, e: DetectedEvent) {
    && m.traceId == traceId && m.distance == m.algorithmDistance == e.distance && m.eventType == m.algorithmType == e.eventType
    && m.insertionLoss == m.algorithmLoss == e.insertionLoss && m.reflectance == e.reflectance && m.confidence == e.confidence
    && !m.reviewed && m.note == "" && m.reviewedBy.None? && m.reviewedAt.None?
  }

  /** Only the six review columns are new. */
  predicate ReviewsColumns(now: Marker, was: Marker, request: Request, distance: real, at: int)
    requires request.ReviewEvent?
  {
    now == was.(eventType := request.eventType, distance := distance, reviewed := true, note := request.note,
                reviewedBy := Some(request.actor), reviewedAt := Some(at))
  }

  /** The distance that a review stores: the one it names, else the one of the copy. */
  predicate IsReviewedDistance(distance: real, request: Request, copy: Marker)
    requires request.ReviewEvent?
  {
    if request.distance.Some? then distance == request.distance.value else distance == copy.distance
  }

  /**
   A detection's commit writes the processing columns of its trace, deletes exactly the trace's
   unreviewed markers and gives every event a new one; or nothing if the trace is missing.
   */
  lemma DetectionWrites(s: State, c: nat, id: nat)
    requires c in s.calls && Replacing(s.calls[c]) && Below(s.markers, s.nextMarker)
    ensures var t, p, trace := Next(s, Commit(c, 0)), s.calls[c].phase.processing, s.calls[c].request.traceId;
            if trace in s.traces then
              && trace in t.traces && ProcessesColumns(t.traces[trace], s.traces[trace], p) && t.traces == s.traces[trace := t.traces[trace]]
              && t.nextMarker == s.nextMarker + |p.found.events|
              && (id < s.nextMarker ==>
                    if id in s.markers && (s.markers[id].traceId != trace || s.markers[id].reviewed)
                    then id in t.markers && t.markers[id] == s.markers[id] else id !in t.markers)
              && (s.nextMarker <= id < t.nextMarker ==> id in t.markers && MarksEvent(t.markers[id], trace, p.found.events[id - s.nextMarker]))
              && (id >= t.nextMarker ==> id !in t.markers)
            else t.traces == s.traces && t.markers == s.markers && t.nextMarker == s.nextMarker
  {
    var p, trace := s.calls[c].phase.processing, s.calls[c].request.traceId;
    StepMovesMarkers(s, Commit(c, 0));
    StepMovesTraces(s, Commit(c, 0));
    ReplacedRows(s.markers, s.nextMarker, trace, p.found.events, id);
  }

  /** A review's commit writes the six columns of its marker; or nothing if the marker has gone. */
  lemma ReviewWrites(s: State, c: nat)
    requires c in s.calls && Revising(s.calls[c])
    ensures var t, r, phase := Next(s, Commit(c, 0)), s.calls[c].request, s.calls[c].phase;
            && t.traces == s.traces
            && if r.markerId in s.markers
               then r.markerId in t.markers && ReviewsColumns(t.markers[r.markerId], s.markers[r.markerId], r, phase.distance, phase.at)
                    && t.markers == s.markers[r.markerId := t.markers[r.markerId]]
               else t.markers == s.markers
  {
    StepMovesMarkers(s, Commit(c, 0));
    StepMovesTraces(s, Commit(c, 0));
  }

  /** An import's commit inserts its trace under an identifier that is free; or nothing if it is taken. */
  lemma ImportWrites(s: State, c: nat, id: nat)
    requires c in s.calls && Inserting(s.calls[c])
    ensures var t := Next(s, Commit(c, id));
            t.traces == (if id in s.traces then s.traces else s.traces[id := s.calls[c].phase.trace]) && t.markers == s.markers
  {
    StepMovesMarkers(s, Commit(c, id));
    StepMovesTraces(s, Commit(c, id));
  }

  /** A review goes on exactly when trace and route exist and its distance is within the route's length as read. */
  lemma ReviewPreparesIff(s: State, c: nat, copy: Marker)
    requires c in s.calls && s.calls[c].request.ReviewEvent? && s.calls[c].phase == MarkerRead(copy)
    ensures var now := Next(s, Prepare(c)).calls[c].phase;
            && (now.AtRevise? || now == Finished)
            && (now.AtRevise? ==> now.at == s.clock && IsReviewedDistance(now.distance, s.calls[c].request, copy))
            && (now.AtRevise? <==>
                  && copy.traceId in s.traces && s.traces[copy.traceId].routeId in s.routes
                  && (if s.calls[c].request.distance.Some? then s.calls[c].request.distance.value else copy.distance)
                     <= s.routes[s.traces[copy.traceId].routeId].length)
  {
  }

  lemma {:induction false} ClockGrows(s: State, steps: seq<Step>)
    ensures s.clock <= Exec(s, steps).clock
  {
    if steps != [] {
      ClockGrows(s, steps[..|steps| - 1]);
      StepKeepsClock(Exec(s, steps[..|steps| - 1]), steps[|steps| - 1]);
    }
  }

  lemma StepKeepsClock(s: State, step: Step)
    ensures s.clock <= Next(s, step).clock
  {
  }

  lemma ReachedLater(s: State, t: State)
    requires Reaches(s, t)
    ensures s.clock <= t.clock
  {
    var steps: seq<Step> :| Exec(s, steps) == t;
    ClockGrows(s, steps);
  }
}
