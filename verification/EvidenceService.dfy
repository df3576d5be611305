/**
 service/trace_service.go and service/event_service.go in their own control flow.  Each read or
 transaction is a method that performs exactly one step of EvidenceProtocol; between two of
 them other calls may run (Others).
 */
module EvidenceService {
  import opened Results
  import opened Distance
  import opened Detect
  import opened TraceRepository
  import opened EventRepository
  import opened EvidenceProtocol
  import opened EvidenceWriteLaws
  import opened Collections
  import Denoise
  import Pipeline = Detect

  class EvidenceService {
    const traces: TraceRepository
    const events: EventRepository
    const maxPoints: nat
    var routes: map<nat, Route>
    var clock: int
    ghost var calls: map<nat, Call>
    ghost var detections: map<nat, LastDetection>

    ghost function Value(): State
      reads this, traces, events
    {
      State(clock, maxPoints, routes, traces.traces, events.markers, events.nextId, calls, detections)
    }

    constructor (now: int, limit: nat)
      ensures fresh(traces) && fresh(events) && Value() == Initial(now, limit)
    {
      traces := new TraceRepository();
      events := new EventRepository();
      maxPoints, routes, clock := limit, map[], now;
      calls, detections := map[], map[];
    }

    /** Any steps of other calls, of the routes and of the clock; the call c itself does not move. */
    method Others(ghost c: nat)
      modifies this, traces, events
      ensures Reaches(old(Value()), Value())
      ensures c in old(calls) ==> c in calls && calls[c] == old(calls)[c]
      ensures c !in old(calls) ==> c !in calls
    {
      ReachesItself(Value());
    }

    method Enter(ghost c: nat, ghost request: Request)
      requires c !in calls
      modifies this`calls
      ensures Value() == Next(old(Value()), Invoke(c, request))
    {
      calls := calls[c := Call(request, Begun)];
    }

    /** From the outside: the call has run, as steps of the protocol, to the given phase. */
    twostate predicate Ran(c: nat, request: Request, phase: Phase)
      reads this, traces, events
    {
      Reaches(old(Value()), Value()) && c in calls && calls[c] == Call(request, phase)
    }

    // ----- import -----

    method CheckSamples(points: seq<real>) returns (ok: bool)
      ensures ok <==> forall i :: 0 <= i < |points| ==> -200.0 <= points[i] <= 100.0
    {
      for i := 0 to |points|
        invariant forall k :: 0 <= k < i ==> -200.0 <= points[k] <= 100.0
      {
        if points[i] < -200.0 || points[i] > 100.0 {
          return false;
        }
      }
      return true;
    }

    /** Import up to its transaction. */
    method BuildTrace(request: Request) returns (r: Result<Trace>)
      requires request.ImportTrace?
      ensures r == ImportOutcome(request, maxPoints, routes)
    {
      if |request.points| > maxPoints {
        return Err("trace exceeds the point limit");
      }
      var inRange := CheckSamples(request.points);
      if !inRange {
        return Err("sample is outside the supported dB range");
      }
      if request.routeId !in routes {
        return Err("route not found");
      }
      r := FilterTrace(request, routes[request.routeId]);
    }

    /** The fallbacks from the request to the defaults. */
    method ImportParameters(request: Request) returns (window: int, threshold: real, merge: int)
      requires request.ImportTrace?
      ensures window == FirstNonZero(0, request.denoiseWindow, 0, DEFAULT_WINDOW)
      ensures threshold == FirstNonZero(0.0, request.peakThreshold, 0.0, DEFAULT_THRESHOLD)
      ensures merge == FirstNonZero(0, request.mergeWindow, 0, DEFAULT_MERGE)
    {
      window, threshold, merge := request.denoiseWindow, request.peakThreshold, request.mergeWindow;
      if window == 0 {
        window := 5;
      }
      if threshold == 0.0 {
        threshold := 0.8;
      }
      if merge == 0 {
        merge := 3;
      }
    }

    /** The part of Import that runs the algorithms. */
    method FilterTrace(request: Request, route: Route) returns (r: Result<Trace>)
      requires request.ImportTrace?
      ensures r == ImportedTrace(request, route)
    {
      var window, threshold, merge := ImportParameters(request);
      var filtered :- Denoise.MovingMedian(request.points, window);
      var noise :- EstimateNoiseFloor(filtered);
      var last := SampleDistance(|request.points| - 1, Line(request.sampleIntervalNS, route.refractiveIndex, route.length));
      if last.Err? {
        return Err(last.error);
      }
      if last.value < route.length * 0.05 {
        return Err("trace sampling range covers less than five percent of the route");
      }
      return Ok(Trace(request.routeId, request.sampleIntervalNS, request.points, filtered, noise, window, threshold, merge));
    }

    method LoadImport(ghost c: nat, request: Request) returns (r: Result<Trace>)
      requires c in calls && calls[c] == Call(request, Begun) && request.ImportTrace?
      modifies this`calls
      ensures Value() == Next(old(Value()), Load(c))
      ensures c in calls && calls[c] == Call(request, if r.Ok? then AtInsert(r.value) else Finished)
      ensures r == ImportOutcome(request, maxPoints, routes) && (r.Ok? ==> ImportedAs(r.value, request))
    {
      r := BuildTrace(request);
      if r.Ok? {
        ImportIs(request, maxPoints, routes);
      }
      calls := calls[c := calls[c].(phase := AfterLoad(Value(), calls[c]))];
    }

    /** The database rejects an identifier that is taken. */
    method InsertTransaction(ghost c: nat, request: Request, trace: Trace, id: nat) returns (inserted: bool)
      requires c in calls && calls[c] == Call(request, AtInsert(trace)) && request.ImportTrace?
      modifies this, traces
      ensures Value() == Next(old(Value()), Commit(c, id))
      ensures inserted ==> id in traces.traces && traces.traces[id] == trace
    {
      inserted := id !in traces.traces;
      if inserted {
        traces.Create(id, trace);
      }
      calls := calls[c := calls[c].(phase := Finished)];
    }

    /** A whole Import call; on success the trace it returns is stored, and is what its request asks for. */
    method Import(ghost c: nat, request: Request, id: nat) returns (r: Result<Trace>)
      requires c !in calls && request.ImportTrace?
      modifies this, traces, events
      ensures Ran(c, request, Finished)
      ensures r.Ok? ==> id in traces.traces && traces.traces[id] == r.value && ImportedAs(r.value, request)
    {
      ghost var s := Value();
      ReachesItself(s);
      Enter(c, request);
      ReachesNext(s, s, Invoke(c, request));
      ghost var s1 := Value();
      r := LoadImport(c, request);
      ReachesNext(s, s1, Load(c));
      if r.Err? {
        return;
      }
      ghost var s2 := Value();
      r := StoreImport(c, request, r.value, id);
      ReachesFurther(s, s2, Value());
    }

    method StoreImport(ghost c: nat, request: Request, trace: Trace, id: nat) returns (r: Result<Trace>)
      requires c in calls && calls[c] == Call(request, AtInsert(trace)) && request.ImportTrace?
      modifies this, traces, events
      ensures Ran(c, request, Finished)
      ensures r.Ok? ==> r.value == trace && id in traces.traces && traces.traces[id] == trace
    {
      ghost var s := Value();
      Others(c);
      ghost var s1 := Value();
      var inserted := InsertTransaction(c, request, trace, id);
      ReachesNext(s, s1, Commit(c, id));
      if !inserted {
        return Err("import trace failed");
      }
      return Ok(trace);
    }

    // ----- detection -----

    method LoadTrace(ghost c: nat, request: Request) returns (r: Result<Trace>)
      requires c in calls && calls[c] == Call(request, Begun) && request.DetectEvents?
      modifies this`calls
      ensures Value() == Next(old(Value()), Load(c))
      ensures c in calls && calls[c] == Call(request, if r.Ok? then TraceRead(r.value) else Finished)
      ensures r == if request.traceId in traces.traces then Ok(traces.traces[request.traceId]) else Err("record not found")
    {
      r := traces.Get(request.traceId);
      calls := calls[c := calls[c].(phase := AfterLoad(Value(), calls[c]))];
    }

    /** The fallbacks from the request to the trace to the defaults. */
    method DetectParameters(request: Request, trace: Trace) returns (window: int, threshold: real, merge: int)
      requires request.DetectEvents?
      ensures window == FirstNonZero(0, request.denoiseWindow, trace.denoiseWindow, DEFAULT_WINDOW)
      ensures threshold == FirstNonZero(0.0, request.peakThreshold, trace.peakThreshold, DEFAULT_THRESHOLD)
      ensures merge == FirstNonZero(0, request.mergeWindow, trace.mergeWindow, DEFAULT_MERGE)
    {
      window, threshold, merge := request.denoiseWindow, request.peakThreshold, request.mergeWindow;
      if window == 0 {
        window := trace.denoiseWindow;
      }
      if window == 0 {
        window := 5;
      }
      if threshold == 0.0 {
        threshold := trace.peakThreshold;
      }
      if threshold == 0.0 {
        threshold := 0.8;
      }
      if merge == 0 {
        merge := trace.mergeWindow;
      }
      if merge == 0 {
        merge := 3;
      }
    }

    /** Detect from the loaded rows to its transaction. */
    method Process(request: Request, trace: Trace, route: Route) returns (r: Result<Processing>)
      requires request.DetectEvents?
      ensures r == DetectOutcome(request, trace, route)
    {
      var window, threshold, merge := DetectParameters(request, trace);
      var filtered :- Denoise.MovingMedian(trace.raw, window);
      var noise :- EstimateNoiseFloor(filtered);
      var found := Pipeline.Detect(filtered, threshold, merge, LineOf(trace, route));
      if found.Err? {
        return Err(found.error);
      }
      return Ok(Processing(filtered, noise, window, threshold, merge, found.value));
    }

    method ProcessLoaded(request: Request, trace: Trace) returns (r: Result<Processing>, ghost route: Route)
      requires request.DetectEvents?
      ensures r == if trace.routeId in routes then DetectOutcome(request, trace, routes[trace.routeId]) else Err("get trace route failed")
      ensures r.Ok? ==> DetectsFrom(r.value, request, trace)
      ensures AfterDetection(request, trace, routes) == if r.Ok? then AtReplace(r.value, route) else Finished
    {
      if trace.routeId !in routes {
        r, route := Err("get trace route failed"), Route(0.0, 0.0);
      } else {
        route := routes[trace.routeId];
        r := Process(request, trace, routes[trace.routeId]);
        if r.Ok? {
          DetectionIs(request, trace, route);
        }
      }
    }

    method PrepareDetection(ghost c: nat, request: Request, trace: Trace) returns (r: Result<Processing>, ghost route: Route)
      requires c in calls && calls[c] == Call(request, TraceRead(trace)) && request.DetectEvents?
      modifies this`calls
      ensures Value() == Next(old(Value()), Prepare(c))
      ensures c in calls && calls[c] == Call(request, if r.Ok? then AtReplace(r.value, route) else Finished)
      ensures r.Ok? ==> DetectsFrom(r.value, request, trace)
    {
      r, route := ProcessLoaded(request, trace);
      calls := calls[c := Call(request, if r.Ok? then AtReplace(r.value, route) else Finished)];
    }

    method BuildMarkers(traceId: nat, found: seq<DetectedEvent>) returns (markers: seq<Marker>)
      ensures markers == MarkersOf(traceId, found)
      ensures |markers| == |found| && forall i :: 0 <= i < |found| ==> MarksEvent(markers[i], traceId, found[i])
    {
      markers := [];
      for i := 0 to |found|
        invariant markers == MarkersOf(traceId, found)[..i]
      {
        var e := found[i];
        markers := markers + [Marker(traceId, e.distance, e.eventType, e.insertionLoss, e.reflectance, e.confidence,
                                     e.eventType, e.distance, e.insertionLoss, false, "", None, None)];
      }
    }

    method ReplaceTransaction(ghost c: nat, request: Request, p: Processing, ghost route: Route) returns (saved: bool)
      requires c in calls && calls[c] == Call(request, AtReplace(p, route)) && request.DetectEvents?
      modifies this, traces, events
      ensures Value() == Next(old(Value()), Commit(c, 0))
      ensures saved ==> request.traceId in traces.traces && Stores(traces.traces[request.traceId], p)
      ensures saved ==> request.traceId in detections && detections[request.traceId].events == p.found.events
    {
      var markers := BuildMarkers(request.traceId, p.found.events);
      saved := traces.UpdateProcessing(request.traceId, p.processed, p.noise, p.window, p.threshold, p.merge);
      if saved {
        detections := detections[request.traceId := LastDetection(events.nextId, p.found.events, p.found.rejected, route)];
        events.ReplaceForTrace(request.traceId, markers);
      }
      calls := calls[c := calls[c].(phase := Finished)];
    }

    /** A whole Detect call; on success the trace stores what it returns, computed from the trace as it was when the call began. */
    method Detect(ghost c: nat, request: Request) returns (r: Result<Processing>)
      requires c !in calls && request.DetectEvents?
      modifies this, traces, events
      ensures Ran(c, request, Finished)
      ensures r.Ok? ==> request.traceId in traces.traces && Stores(traces.traces[request.traceId], r.value)
      ensures r.Ok? ==> request.traceId in detections && detections[request.traceId].events == r.value.found.events
      ensures r.Ok? ==> request.traceId in old(traces.traces) && DetectsFrom(r.value, request, old(traces.traces)[request.traceId])
    {
      ghost var s := Value();
      ReachesItself(s);
      Enter(c, request);
      ReachesNext(s, s, Invoke(c, request));
      ghost var s1 := Value();
      var loaded := LoadTrace(c, request);
      ReachesNext(s, s1, Load(c));
      if loaded.Err? {
        return Err(loaded.error);
      }
      ghost var s2 := Value();
      r := DetectLoaded(c, request, loaded.value);
      ReachesFurther(s, s2, Value());
    }

    method DetectLoaded(ghost c: nat, request: Request, trace: Trace) returns (r: Result<Processing>)
      requires c in calls && calls[c] == Call(request, TraceRead(trace)) && request.DetectEvents?
      modifies this, traces, events
      ensures Ran(c, request, Finished)
      ensures r.Ok? ==> request.traceId in traces.traces && Stores(traces.traces[request.traceId], r.value)
      ensures r.Ok? ==> request.traceId in detections && detections[request.traceId].events == r.value.found.events
      ensures r.Ok? ==> DetectsFrom(r.value, request, trace)
    {
      ghost var s := Value();
      Others(c);
      ghost var s1 := Value();
      ghost var route;
      r, route := PrepareDetection(c, request, trace);
      ReachesNext(s, s1, Prepare(c));
      if r.Err? {
        return;
      }
      ghost var s2 := Value();
      r := SaveDetection(c, request, r.value, route);
      ReachesFurther(s, s2, Value());
    }

    method SaveDetection(ghost c: nat, request: Request, p: Processing, ghost route: Route) returns (r: Result<Processing>)
      requires c in calls && calls[c] == Call(request, AtReplace(p, route)) && request.DetectEvents?
      modifies this, traces, events
      ensures Ran(c, request, Finished)
      ensures r.Ok? ==> request.traceId in traces.traces && Stores(traces.traces[request.traceId], r.value)
      ensures r.Ok? ==> request.traceId in detections && detections[request.traceId].events == r.value.found.events
      ensures r.Ok? ==> r.value == p
    {
      ghost var s := Value();
      Others(c);
      ghost var s1 := Value();
      var saved := ReplaceTransaction(c, request, p, route);
      ReachesNext(s, s1, Commit(c, 0));
      if !saved {
        return Err("save detected events failed");
      }
      return Ok(p);
    }

    // ----- review -----

    method LoadMarker(ghost c: nat, request: Request) returns (r: Result<Marker>)
      requires c in calls && calls[c] == Call(request, Begun) && request.ReviewEvent?
      modifies this`calls
      ensures Value() == Next(old(Value()), Load(c))
      ensures c in calls && calls[c] == Call(request, if r.Ok? then MarkerRead(r.value) else Finished)
      ensures r == if request.markerId in events.markers then Ok(events.markers[request.markerId]) else Err("record not found")
    {
      r := events.Get(request.markerId);
      calls := calls[c := calls[c].(phase := AfterLoad(Value(), calls[c]))];
    }

    /** The distance and the instant that the review will store. */
    method PrepareReview(ghost c: nat, request: Request, marker: Marker) returns (r: Result<(real, int)>)
      requires c in calls && calls[c] == Call(request, MarkerRead(marker)) && request.ReviewEvent?
      modifies this`calls
      ensures Value() == Next(old(Value()), Prepare(c))
      ensures c in calls && calls[c] == Call(request, if r.Ok? then AtRevise(r.value.0, r.value.1) else Finished)
      ensures r.Ok? ==> r.value.1 == clock && IsReviewedDistance(r.value.0, request, marker)
    {
      var distance := marker.distance;
      if request.distance.Some? {
        distance := request.distance.value;
      }
      if marker.traceId !in traces.traces {
        r := Err("get event trace failed");
      } else if traces.traces[marker.traceId].routeId !in routes {
        r := Err("get event route failed");
      } else if distance > routes[traces.traces[marker.traceId].routeId].length {
        r := Err("reviewed distance exceeds route length");
      } else {
        r := Ok((distance, clock));
      }
      calls := calls[c := calls[c].(phase := AfterPrepare(Value(), calls[c]))];
    }

    method ReviseTransaction(ghost c: nat, request: Request, distance: real, at: int) returns (changed: bool)
      requires c in calls && calls[c] == Call(request, AtRevise(distance, at)) && request.ReviewEvent?
      modifies this, events
      ensures Value() == Next(old(Value()), Commit(c, 0))
      ensures changed ==> request.markerId in events.markers && ShowsReview(events.markers[request.markerId], request, distance, at)
    {
      changed := events.Review(request.markerId, request.eventType, distance, request.note, request.actor, at);
      calls := calls[c := calls[c].(phase := Finished)];
    }

    /**
     A whole Review call; on success the stored marker shows all six columns of the review, with the
     distance that the request names, or else the one that the marker had when the call began.
     */
    method Review(ghost c: nat, request: Request) returns (r: Result<(real, int)>)
      requires c !in calls && request.ReviewEvent?
      modifies this, traces, events
      ensures Ran(c, request, Finished)
      ensures r.Ok? ==> request.markerId in events.markers && ShowsReview(events.markers[request.markerId], request, r.value.0, r.value.1)
      ensures r.Ok? ==> old(clock) <= r.value.1 && request.markerId in old(events.markers)
      ensures r.Ok? ==> IsReviewedDistance(r.value.0, request, old(events.markers)[request.markerId])
    {
      ghost var s := Value();
      ReachesItself(s);
      Enter(c, request);
      ReachesNext(s, s, Invoke(c, request));
      ghost var s1 := Value();
      var loaded := LoadMarker(c, request);
      ReachesNext(s, s1, Load(c));
      if loaded.Err? {
        return Err(loaded.error);
      }
      ghost var s2 := Value();
      r := ReviewLoaded(c, request, loaded.value);
      ReachesFurther(s, s2, Value());
    }

    method ReviewLoaded(ghost c: nat, request: Request, marker: Marker) returns (r: Result<(real, int)>)
      requires c in calls && calls[c] == Call(request, MarkerRead(marker)) && request.ReviewEvent?
      modifies this, traces, events
      ensures Ran(c, request, Finished)
      ensures r.Ok? ==> request.markerId in events.markers && ShowsReview(events.markers[request.markerId], request, r.value.0, r.value.1)
      ensures r.Ok? ==> old(clock) <= r.value.1 && IsReviewedDistance(r.value.0, request, marker)
    {
      ghost var s := Value();
      Others(c);
      ghost var s1 := Value();
      ReachedLater(s, s1);
      var prepared := PrepareReview(c, request, marker);
      ReachesNext(s, s1, Prepare(c));
      if prepared.Err? {
        return Err(prepared.error);
      }
      ghost var s2 := Value();
      r := SaveReview(c, request, prepared.value.0, prepared.value.1);
      ReachesFurther(s, s2, Value());
    }

    method SaveReview(ghost c: nat, request: Request, distance: real, at: int) returns (r: Result<(real, int)>)
      requires c in calls && calls[c] == Call(request, AtRevise(distance, at)) && request.ReviewEvent?
      modifies this, traces, events
      ensures Ran(c, request, Finished)
      ensures r.Ok? ==> request.markerId in events.markers && ShowsReview(events.markers[request.markerId], request, r.value.0, r.value.1)
      ensures r.Ok? ==> r.value == (distance, at)
    {
      ghost var s := Value();
      Others(c);
      ghost var s1 := Value();
      var changed := ReviseTransaction(c, request, distance, at);
      ReachesNext(s, s1, Commit(c, 0));
      if !changed {
        return Err("review event failed");
      }
      return Ok((distance, at));
    }
  }

  /** A detection computed from the trace that was read: its parameters, and what they make of the raw samples. */
  ghost predicate DetectsFrom(p: Processing, request: Request, read: Trace)
    requires request.DetectEvents?
  {
    && DetectsWith(p, request, read) && IsFiltered(p.processed, p.noise, read.raw, p.window)
    && exists route: Route :: ReadsOff(p, read, route)
  }

  /** The processing columns of the trace are those of the detection. */
  ghost predicate Stores(trace: Trace, p: Processing) {
    && trace.processed == p.processed && trace.noiseFloor == p.noise
    && trace.denoiseWindow == p.window && trace.peakThreshold == p.threshold && trace.mergeWindow == p.merge
  }

  /** The six columns of a review. */
  ghost predicate ShowsReview(m: Marker, request: Request, distance: real, at: int)
    requires request.ReviewEvent?
  {
    && m.eventType == request.eventType && m.distance == distance && m.reviewed && m.note == request.note
    && m.reviewedBy == Some(request.actor) && m.reviewedAt == Some(at)
  }
}
