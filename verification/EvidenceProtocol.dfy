/**
 service/trace_service.go and service/event_service.go as interleaved calls over the stored
 traces and event markers.  As in CaseProtocol a step is one read or one transaction of one
 call and carries whatever the program does not decide.
 */
module EvidenceProtocol {
  import opened Results
  import opened Distance
  import opened Detect
  import opened TraceRepository
  import opened EventRepository
  import opened Collections
  import Denoise
  import DetectLaws

  datatype Request =
    | ImportTrace(routeId: nat, sampleIntervalNS: real, points: seq<real>, denoiseWindow: int, peakThreshold: real, mergeWindow: int)
    | DetectEvents(traceId: nat, denoiseWindow: int, peakThreshold: real, mergeWindow: int)
    | ReviewEvent(markerId: nat, eventType: EventType, distance: Option<real>, note: string, actor: nat)

  /** What detection computes before its transaction. */
  datatype Processing = Processing(
    processed: seq<real>, noise: real, window: int, threshold: real, merge: int, found: Detection)

  datatype Phase =
    | Begun
    | AtInsert(trace: Trace)
    | TraceRead(trace: Trace)
    | AtReplace(processing: Processing, route: Route)
    | MarkerRead(marker: Marker)
    | AtRevise(distance: real, at: int)
    | Finished

  datatype Call = Call(request: Request, phase: Phase)

  /** The last committed detection of a trace: its markers' first identifier, its events, and the route it read. */
  datatype LastDetection = LastDetection(first: nat, events: seq<DetectedEvent>, rejected: nat, route: Route)

  /** detections is an auxiliary variable that no step reads. */
  datatype State = State(
    clock: int,
    maxPoints: nat,
    routes: map<nat, Route>,
    traces: map<nat, Trace>,
    markers: map<nat, Marker>,
    nextMarker: nat,
    calls: map<nat, Call>,
    detections: map<nat, LastDetection>)

  datatype Step =
    | Tick(elapsed: nat)
    | PutRoute(id: nat, route: Route)
    | Invoke(call: nat, request: Request)
    | Load(call: nat)
    | Prepare(call: nat)
    | Commit(call: nat, newTrace: nat)
    | Abort(call: nat)

  // ----- the decisions of the services -----

  const DEFAULT_WINDOW := 5
  const DEFAULT_THRESHOLD := 0.8
  const DEFAULT_MERGE := 3

  predicate InDbRange(points: seq<real>) {
    forall i :: 0 <= i < |points| ==> -200.0 <= points[i] <= 100.0
  }

  /** The part of TraceService.Import that runs the algorithms. */
  function ImportedTrace(request: Request, route: Route): Result<Trace>
    requires request.ImportTrace?
  {
    var window := FirstNonZero(0, request.denoiseWindow, 0, DEFAULT_WINDOW);
    var filtered :- Denoise.MovingMedianSpec(request.points, window);
    var noise :- NoiseFloorSpec(filtered);
    var last :- SampleDistance(|request.points| - 1, Line(request.sampleIntervalNS, route.refractiveIndex, route.length));
    if last < route.length * 0.05 then Err("trace sampling range covers less than five percent of the route")
    else Ok(Trace(request.routeId, request.sampleIntervalNS, request.points, filtered, noise, window,
                  FirstNonZero(0.0, request.peakThreshold, 0.0, DEFAULT_THRESHOLD),
                  FirstNonZero(0, request.mergeWindow, 0, DEFAULT_MERGE)))
  }

  /** TraceService.Import up to its transaction: the row to insert, or the first failing check. */
  function ImportOutcome(request: Request, maxPoints: nat, routes: map<nat, Route>): Result<Trace>
    requires request.ImportTrace?
  {
    if |request.points| > maxPoints then Err("trace exceeds the point limit")
    else if !InDbRange(request.points) then Err("sample is outside the supported dB range")
    else if request.routeId !in routes then Err("route not found")
    else ImportedTrace(request, routes[request.routeId])
  }

  /** EventService.Detect from the loaded trace and route to its transaction. */
  ghost function DetectOutcome(request: Request, trace: Trace, route: Route): Result<Processing>
    requires request.DetectEvents?
  {
    var window := FirstNonZero(0, request.denoiseWindow, trace.denoiseWindow, DEFAULT_WINDOW);
    var threshold := FirstNonZero(0.0, request.peakThreshold, trace.peakThreshold, DEFAULT_THRESHOLD);
    var merge := FirstNonZero(0, request.mergeWindow, trace.mergeWindow, DEFAULT_MERGE);
    var filtered :- Denoise.MovingMedianSpec(trace.raw, window);
    var noise :- NoiseFloorSpec(filtered);
    var found :- DetectSpec(filtered, threshold, merge, LineOf(trace, route));
    Ok(Processing(filtered, noise, window, threshold, merge, found))
  }

  /** The distance a review stores: the one given, else the one its read saw. */
  function RevisedDistance(request: Request, marker: Marker): real
    requires request.ReviewEvent?
  {
    match request.distance
    case None => marker.distance
    case Some(d) => d
  }

  // ----- steps -----

  /** The next phase of a call that loads its first row. */
  function AfterLoad(s: State, call: Call): Phase {
    match call.request
    case ImportTrace(_, _, _, _, _, _) =>
      (match ImportOutcome(call.request, s.maxPoints, s.routes) case Ok(trace) => AtInsert(trace) case Err(_) => Finished)
    case DetectEvents(traceId, _, _, _) => if traceId in s.traces then TraceRead(s.traces[traceId]) else Finished
    case ReviewEvent(markerId, _, _, _, _) => if markerId in s.markers then MarkerRead(s.markers[markerId]) else Finished
  }

  /** The next phase of a detection that has read its trace. */
  ghost function AfterDetection(request: Request, trace: Trace, routes: map<nat, Route>): Phase
    requires request.DetectEvents?
  {
    if trace.routeId !in routes then Finished
    else
      match DetectOutcome(request, trace, routes[trace.routeId])
      case Ok(p) => AtReplace(p, routes[trace.routeId])
      case Err(_) => Finished
  }

  /** The next phase of a call that reads the route and computes. */
  ghost function AfterPrepare(s: State, call: Call): Phase {
    match call
    case Call(DetectEvents(_, _, _, _), TraceRead(trace)) =>
      AfterDetection(call.request, trace, s.routes)
    case Call(ReviewEvent(_, _, _, _, _), MarkerRead(marker)) =>
      if marker.traceId !in s.traces || s.traces[marker.traceId].routeId !in s.routes then Finished
      else if RevisedDistance(call.request, marker) > s.routes[s.traces[marker.traceId].routeId].length then Finished
      else AtRevise(RevisedDistance(call.request, marker), s.clock)
    case _ => call.phase
  }

  function MarkersOf(traceId: nat, events: seq<DetectedEvent>): (markers: seq<Marker>)
    ensures |markers| == |events|
  {
    seq(|events|, i requires 0 <= i < |events| => NewMarker(traceId, events[i]))
  }

  function InsertTrace(s: State, call: Call, id: nat): State
    requires call.request.ImportTrace? && call.phase.AtInsert?
  {
    if id in s.traces then s else s.(traces := s.traces[id := call.phase.trace])
  }

  /** Detection's transaction: the processing columns, the replaced markers; nothing if the trace is missing. */
  function ReplaceEvents(s: State, call: Call): State
    requires call.request.DetectEvents? && call.phase.AtReplace?
  {
    var id, p := call.request.traceId, call.phase.processing;
    if id !in s.traces then s
    else
      s.(traces := s.traces[id := Reprocessed(s.traces[id], p.processed, p.noise, p.window, p.threshold, p.merge)],
         markers := Inserted(Kept(s.markers, id), s.nextMarker, MarkersOf(id, p.found.events)),
         nextMarker := s.nextMarker + |p.found.events|,
         detections := s.detections[id := LastDetection(s.nextMarker, p.found.events, p.found.rejected, call.phase.route)])
  }

  /** Review's transaction; nothing if the marker has been deleted since it was read. */
  function ReviseMarker(s: State, call: Call): State
    requires call.request.ReviewEvent? && call.phase.AtRevise?
  {
    var r := call.request;
    if r.markerId !in s.markers then s
    else s.(markers := s.markers[r.markerId := Reviewed(s.markers[r.markerId], r.eventType, call.phase.distance, r.note, r.actor, call.phase.at)])
  }

  function Committed(s: State, call: Call, newTrace: nat): State {
    match (call.request, call.phase)
    case (ImportTrace(_, _, _, _, _, _), AtInsert(_)) => InsertTrace(s, call, newTrace)
    case (DetectEvents(_, _, _, _), AtReplace(_, _)) => ReplaceEvents(s, call)
    case (ReviewEvent(_, _, _, _, _), AtRevise(_, _)) => ReviseMarker(s, call)
    case _ => s
  }

  function InCall(s: State, c: nat, phase: Phase): State
    requires c in s.calls
  {
    s.(calls := s.calls[c := s.calls[c].(phase := phase)])
  }

  predicate AtTransaction(phase: Phase) { phase.AtInsert? || phase.AtReplace? || phase.AtRevise? }

  /** One step; a step that is not enabled changes nothing. */
  ghost function Next(s: State, step: Step): State {
    match step
    case Tick(elapsed) => s.(clock := s.clock + elapsed)
    case PutRoute(id, route) => if route.Allowed() then s.(routes := s.routes[id := route]) else s
    case Invoke(c, request) => if c in s.calls then s else s.(calls := s.calls[c := Call(request, Begun)])
    case Load(c) => if c in s.calls && s.calls[c].phase.Begun? then InCall(s, c, AfterLoad(s, s.calls[c])) else s
    case Prepare(c) => if c in s.calls then InCall(s, c, AfterPrepare(s, s.calls[c])) else s
    case Commit(c, id) =>
      if c in s.calls && AtTransaction(s.calls[c].phase) then InCall(Committed(s, s.calls[c], id), c, Finished) else s
    case Abort(c) => if c in s.calls then InCall(s, c, Finished) else s
  }

  function Initial(clock: int, maxPoints: nat): State {
    State(clock, maxPoints, map[], map[], map[], 0, map[], map[])
  }

  ghost function Exec(s: State, steps: seq<Step>): State {
    if steps == [] then s else Next(Exec(s, steps[..|steps| - 1]), steps[|steps| - 1])
  }

  lemma {:induction false} ExecConcat(s: State, a: seq<Step>, b: seq<Step>)
    ensures Exec(s, a + b) == Exec(Exec(s, a), b)
  {
    if b == [] {
      assert a + b == a;
    } else {
      assert (a + b)[..|a + b| - 1] == a + b[..|b| - 1];
      ExecConcat(s, a, b[..|b| - 1]);
    }
  }

  ghost predicate Reaches(s: State, t: State) { exists steps: seq<Step> :: Exec(s, steps) == t }

  lemma ReachesItself(s: State)
    ensures Reaches(s, s)
  {
    assert Exec(s, []) == s;
  }

  lemma ReachesNext(s: State, t: State, step: Step)
    requires Reaches(s, t)
    ensures Reaches(s, Next(t, step))
  {
    var steps: seq<Step> :| Exec(s, steps) == t;
    assert (steps + [step])[..|steps|] == steps;
    assert Exec(s, steps + [step]) == Next(t, step);
  }

  lemma ReachesFurther(s: State, t: State, u: State)
    requires Reaches(s, t) && Reaches(t, u)
    ensures Reaches(s, u)
  {
    var a: seq<Step> :| Exec(s, a) == t;
    var b: seq<Step> :| Exec(t, b) == u;
    ExecConcat(s, a, b);
    assert Exec(s, a + b) == u;
  }
}
