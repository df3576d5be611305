/** What holds of traces and markers in every run, however imports, detections and reviews interleave. */
module EvidenceLaws {
  import opened Results
  import opened Distance
  import opened Detect
  import opened TraceRepository
  import opened EventRepository
  import opened EvidenceProtocol
  import Denoise
  import DetectLaws

  // ----- what a call carries -----

  /** The processed points and the noise floor are what the filter yields on the raw points with the stored window. */
  ghost predicate Replays(trace: Trace) {
    && Denoise.MovingMedianSpec(trace.raw, trace.denoiseWindow) == Ok(trace.processed)
    && NoiseFloorSpec(trace.processed) == Ok(trace.noiseFloor)
  }

  /** The columns that no step writes after the import. */
  ghost predicate SameSource(a: Trace, b: Trace) {
    a.raw == b.raw && a.sampleIntervalNS == b.sampleIntervalNS && a.routeId == b.routeId
  }

  ghost predicate SourcesKept(before: map<nat, Trace>, after: map<nat, Trace>) {
    forall id :: id in before ==> id in after && SameSource(before[id], after[id])
  }

  /** The processing is the pipeline's outcome on the trace's raw points and the given route. */
  ghost predicate ProcessingOf(p: Processing, trace: Trace, route: Route) {
    && Denoise.MovingMedianSpec(trace.raw, p.window) == Ok(p.processed)
    && NoiseFloorSpec(p.processed) == Ok(p.noise)
    && DetectSpec(p.processed, p.threshold, p.merge, LineOf(trace, route)) == Ok(p.found)
  }

  /** What a call remembers is still right for the raw points as stored now. */
  ghost predicate PhaseSound(traces: map<nat, Trace>, call: Call) {
    match (call.request, call.phase)
    case (ImportTrace(_, _, _, _, _, _), AtInsert(trace)) => Replays(trace)
    case (DetectEvents(id, _, _, _), TraceRead(trace)) => id in traces && SameSource(trace, traces[id])
    case (DetectEvents(id, _, _, _), AtReplace(p, route)) => id in traces && ProcessingOf(p, traces[id], route)
    case _ => true
  }

  ghost predicate CallSound(s: State, c: nat) { c in s.calls ==> PhaseSound(s.traces, s.calls[c]) }

  lemma ImportReplays(request: Request, maxPoints: nat, routes: map<nat, Route>)
    requires request.ImportTrace? && ImportOutcome(request, maxPoints, routes).Ok?
    ensures Replays(ImportOutcome(request, maxPoints, routes).value)
  {
  }

  lemma DetectProcesses(request: Request, trace: Trace, route: Route, stored: Trace)
    requires request.DetectEvents? && DetectOutcome(request, trace, route).Ok? && SameSource(trace, stored)
    ensures ProcessingOf(DetectOutcome(request, trace, route).value, stored, route)
  {
  }

  lemma LoadSound(s: State, call: Call)
    ensures PhaseSound(s.traces, call.(phase := AfterLoad(s, call)))
  {
    if call.request.ImportTrace? && ImportOutcome(call.request, s.maxPoints, s.routes).Ok? {
      ImportReplays(call.request, s.maxPoints, s.routes);
    }
  }

  lemma PrepareSound(s: State, call: Call)
    requires PhaseSound(s.traces, call)
    ensures PhaseSound(s.traces, call.(phase := AfterPrepare(s, call)))
  {
    if call.request.DetectEvents? && call.phase.TraceRead? && call.phase.trace.routeId in s.routes {
      var route := s.routes[call.phase.trace.routeId];
      if DetectOutcome(call.request, call.phase.trace, route).Ok? {
        DetectProcesses(call.request, call.phase.trace, route, s.traces[call.request.traceId]);
      }
    }
  }

  lemma PhaseStaysSound(before: map<nat, Trace>, after: map<nat, Trace>, call: Call)
    requires PhaseSound(before, call) && SourcesKept(before, after)
    ensures PhaseSound(after, call)
  {
  }

  // ----- what one step does to the stored traces -----

  predicate Replacing(call: Call) { call.request.DetectEvents? && call.phase.AtReplace? }

  predicate Revising(call: Call) { call.request.ReviewEvent? && call.phase.AtRevise? }

  predicate Inserting(call: Call) { call.request.ImportTrace? && call.phase.AtInsert? }

  function NewColumns(trace: Trace, p: Processing): Trace {
    Reprocessed(trace, p.processed, p.noise, p.window, p.threshold, p.merge)
  }

  lemma CommitMovesTrace(s: State, call: Call, newTrace: nat, id: nat)
    ensures var t := Committed(s, call, newTrace);
            && (id in s.traces ==> id in t.traces)
            && (id in s.traces && !(Replacing(call) && call.request.traceId == id) ==> t.traces[id] == s.traces[id])
            && (id in s.traces && Replacing(call) && call.request.traceId == id ==> t.traces[id] == NewColumns(s.traces[id], call.phase.processing))
            && (id !in s.traces && id in t.traces ==> Inserting(call) && t.traces[id] == call.phase.trace)
  {
  }

  /** Only a commit writes traces. */
  lemma StepMovesTraces(s: State, step: Step)
    ensures Next(s, step).traces ==
            if step.Commit? && step.call in s.calls && AtTransaction(s.calls[step.call].phase)
            then Committed(s, s.calls[step.call], step.newTrace).traces else s.traces
  {
  }

  /** Steps never touch the source columns of a trace. */
  lemma StepKeepsSources(s: State, step: Step)
    ensures SourcesKept(s.traces, Next(s, step).traces)
  {
    StepMovesTraces(s, step);
    if step.Commit? && step.call in s.calls {
      forall id | id in s.traces
        ensures var t := Committed(s, s.calls[step.call], step.newTrace);
                id in t.traces && SameSource(s.traces[id], t.traces[id])
      {
        CommitMovesTrace(s, s.calls[step.call], step.newTrace, id);
      }
    }
  }

  lemma CommitKeepsCalls(s: State, call: Call, newTrace: nat)
    ensures Committed(s, call, newTrace).calls == s.calls
  {
  }

  lemma {:induction false} SourcesSurvive(s: State, steps: seq<Step>)
    ensures SourcesKept(s.traces, Exec(s, steps).traces)
  {
    if steps != [] {
      SourcesSurvive(s, steps[..|steps| - 1]);
      StepKeepsSources(Exec(s, steps[..|steps| - 1]), steps[|steps| - 1]);
    }
  }

  lemma StepMovesCall(s: State, step: Step, c: nat)
    ensures c in s.calls ==> c in Next(s, step).calls
    ensures c in Next(s, step).calls ==>
              Next(s, step).calls[c] ==
                if c !in s.calls then Call(step.request, Begun)
                else if step == Load(c) && s.calls[c].phase.Begun? then s.calls[c].(phase := AfterLoad(s, s.calls[c]))
                else if step == Prepare(c) then s.calls[c].(phase := AfterPrepare(s, s.calls[c]))
                else if step == Abort(c) || (step.Commit? && step.call == c && AtTransaction(s.calls[c].phase)) then s.calls[c].(phase := Finished)
                else s.calls[c]
  {
    if step.Commit? && step.call in s.calls {
      CommitKeepsCalls(s, s.calls[step.call], step.newTrace);
    }
  }

  lemma CallStaysSound(s: State, step: Step, c: nat)
    requires CallSound(s, c)
    ensures CallSound(Next(s, step), c)
  {
    StepMovesCall(s, step, c);
    StepKeepsSources(s, step);
    if c in s.calls {
      LoadSound(s, s.calls[c]);
      PrepareSound(s, s.calls[c]);
      PhaseStaysSound(s.traces, Next(s, step).traces, Next(s, step).calls[c]);
    }
  }

  lemma {:induction false} CallsSound(clock: int, maxPoints: nat, steps: seq<Step>, c: nat)
    ensures CallSound(Exec(Initial(clock, maxPoints), steps), c)
  {
    if steps != [] {
      CallsSound(clock, maxPoints, steps[..|steps| - 1], c);
      CallStaysSound(Exec(Initial(clock, maxPoints), steps[..|steps| - 1]), steps[|steps| - 1], c);
    }
  }

  // ----- replayability -----

  ghost predicate TraceSound(s: State, id: nat) { id in s.traces ==> Replays(s.traces[id]) }

  lemma NewColumnsReplay(trace: Trace, p: Processing, route: Route)
    requires ProcessingOf(p, trace, route)
    ensures Replays(NewColumns(trace, p))
  {
  }

  lemma TraceStaysSound(s: State, step: Step, id: nat)
    requires TraceSound(s, id) && (step.Commit? ==> CallSound(s, step.call))
    ensures TraceSound(Next(s, step), id)
  {
    StepMovesTraces(s, step);
    if step.Commit? && step.call in s.calls {
      var call := s.calls[step.call];
      CommitMovesTrace(s, call, step.newTrace, id);
      if Replacing(call) && call.request.traceId == id && id in s.traces {
        NewColumnsReplay(s.traces[id], call.phase.processing, call.phase.route);
      }
    }
  }

  /**
   In every run the processed points and noise floor of every trace are those of rerunning the
   filter on its raw points with its stored window.
   */
  lemma {:induction false} EveryTraceReplays(clock: int, maxPoints: nat, steps: seq<Step>, id: nat)
    ensures TraceSound(Exec(Initial(clock, maxPoints), steps), id)
  {
    if steps != [] {
      var before, step := Exec(Initial(clock, maxPoints), steps[..|steps| - 1]), steps[|steps| - 1];
      EveryTraceReplays(clock, maxPoints, steps[..|steps| - 1], id);
      if step.Commit? {
        CallsSound(clock, maxPoints, steps[..|steps| - 1], step.call);
      }
      TraceStaysSound(before, step, id);
    }
  }

  /** Rerunning the whole pipeline on the trace as stored gives the events and rejections of the detection. */
  ghost predicate Reproduces(trace: Trace, d: LastDetection) {
    DetectLaws.PipelineSpec(trace.raw, trace.denoiseWindow, trace.peakThreshold, trace.mergeWindow, LineOf(trace, d.route))
    == Ok(Detection(d.events, d.rejected))
  }

  ghost predicate DetectionSound(s: State, t: nat) {
    t in s.detections ==> t in s.traces && Reproduces(s.traces[t], s.detections[t])
  }

  function DetectionOf(call: Call, first: nat): LastDetection
    requires Replacing(call)
  {
    LastDetection(first, call.phase.processing.found.events, call.phase.processing.found.rejected, call.phase.route)
  }

  lemma NewColumnsReproduce(trace: Trace, p: Processing, route: Route, first: nat)
    requires ProcessingOf(p, trace, route)
    ensures Reproduces(NewColumns(trace, p), LastDetection(first, p.found.events, p.found.rejected, route))
  {
  }

  lemma DetectionStaysSound(s: State, step: Step, t: nat)
    requires DetectionSound(s, t) && (step.Commit? ==> CallSound(s, step.call))
    ensures DetectionSound(Next(s, step), t)
  {
    StepMovesTraces(s, step);
    StepMovesMarkers(s, step);
    if step.Commit? && step.call in s.calls {
      var call := s.calls[step.call];
      CommitMovesTrace(s, call, step.newTrace, t);
      if Replacing(call) && call.request.traceId == t && t in s.traces {
        NewColumnsReproduce(s.traces[t], call.phase.processing, call.phase.route, s.nextMarker);
      }
    }
  }

  /**
   In every run, rerunning filter and detection on the raw points with the stored parameters
   yields exactly the events of the trace's last committed detection.
   */
  lemma {:induction false} EveryDetectionReproduces(clock: int, maxPoints: nat, steps: seq<Step>, t: nat)
    ensures DetectionSound(Exec(Initial(clock, maxPoints), steps), t)
  {
    if steps != [] {
      var before, step := Exec(Initial(clock, maxPoints), steps[..|steps| - 1]), steps[|steps| - 1];
      EveryDetectionReproduces(clock, maxPoints, steps[..|steps| - 1], t);
      if step.Commit? {
        CallsSound(clock, maxPoints, steps[..|steps| - 1], step.call);
      }
      DetectionStaysSound(before, step, t);
    }
  }

  // ----- markers -----

  ghost predicate Below(markers: map<nat, Marker>, next: nat) {
    forall id :: id in markers ==> id < next
  }

  /** Reading a map of inserted rows. */
  lemma {:induction false} InsertedRows(markers: map<nat, Marker>, next: nat, added: seq<Marker>, id: nat)
    requires Below(markers, next)
    ensures var all := Inserted(markers, next, added);
            && (id in all <==> id in markers || next <= id < next + |added|)
            && (next <= id < next + |added| ==> all[id] == added[id - next])
            && (id in markers ==> all[id] == markers[id])
  {
    if added != [] {
      InsertedRows(markers, next, added[..|added| - 1], id);
    }
  }

  /** The marker table after a detection's commit. */
  function Replaced(markers: map<nat, Marker>, next: nat, trace: nat, events: seq<DetectedEvent>): map<nat, Marker> {
    Inserted(Kept(markers, trace), next, MarkersOf(trace, events))
  }

  lemma ReplacedRows(markers: map<nat, Marker>, next: nat, trace: nat, events: seq<DetectedEvent>, id: nat)
    requires Below(markers, next)
    ensures var all := Replaced(markers, next, trace, events);
            && (id in all <==> (id in markers && (markers[id].traceId != trace || markers[id].reviewed)) || next <= id < next + |events|)
            && (next <= id < next + |events| ==> all[id] == NewMarker(trace, events[id - next]))
            && (id in markers && id in all ==> all[id] == markers[id])
  {
    InsertedRows(Kept(markers, trace), next, MarkersOf(trace, events), id);
  }

  /** An unreviewed marker shows the algorithm's values and is one of its trace's last detection. */
  ghost predicate FromLast(m: Marker, id: nat, detections: map<nat, LastDetection>) {
    && m.eventType == m.algorithmType && m.distance == m.algorithmDistance
    && m.traceId in detections
    && detections[m.traceId].first <= id < detections[m.traceId].first + |detections[m.traceId].events|
  }

  ghost predicate MarkerSound(m: Marker, id: nat, next: nat, detections: map<nat, LastDetection>) {
    id < next && 0.6 <= m.confidence <= 0.99 && (!m.reviewed ==> FromLast(m, id, detections))
  }

  ghost predicate EventRecorded(markers: map<nat, Marker>, t: nat, d: LastDetection, i: nat)
    requires i < |d.events|
  {
    d.first + i in markers && RecordsEvent(markers[d.first + i], t, d.events[i])
  }

  /** Every event of the detection still has its marker, with the algorithm's figures. */
  ghost predicate Recorded(markers: map<nat, Marker>, next: nat, t: nat, d: LastDetection) {
    && d.first + |d.events| <= next
    && forall i :: 0 <= i < |d.events| ==> EventRecorded(markers, t, d, i)
  }

  ghost predicate MarkersSound(markers: map<nat, Marker>, next: nat, detections: map<nat, LastDetection>) {
    && (forall id :: id in markers ==> MarkerSound(markers[id], id, next, detections))
    && (forall t :: t in detections ==> Recorded(markers, next, t, detections[t]))
  }

  ghost predicate Confident(events: seq<DetectedEvent>) {
    forall i :: 0 <= i < |events| ==> 0.6 <= events[i].confidence <= 0.99
  }

  lemma ProcessedConfidence(p: Processing, trace: Trace, route: Route)
    requires ProcessingOf(p, trace, route)
    ensures Confident(p.found.events)
  {
    forall i | 0 <= i < |p.found.events|
      ensures 0.6 <= p.found.events[i].confidence <= 0.99
    {
      DetectLaws.DetectedConfidence(p.processed, p.threshold, p.merge, LineOf(trace, route), i);
    }
  }

  lemma ReplacedMarkerSound(markers: map<nat, Marker>, next: nat, detections: map<nat, LastDetection>, t: nat, d: LastDetection, id: nat)
    requires MarkersSound(markers, next, detections) && Below(markers, next) && Confident(d.events) && d.first == next
    requires id in Replaced(markers, next, t, d.events)
    ensures MarkerSound(Replaced(markers, next, t, d.events)[id], id, next + |d.events|, detections[t := d])
  {
    ReplacedRows(markers, next, t, d.events, id);
    if id in markers {
      assert MarkerSound(markers[id], id, next, detections);
    }
  }

  lemma ReplacedRecorded(markers: map<nat, Marker>, next: nat, detections: map<nat, LastDetection>, t: nat, d: LastDetection, k: nat)
    requires MarkersSound(markers, next, detections) && Below(markers, next) && d.first == next && k in detections[t := d]
    ensures Recorded(Replaced(markers, next, t, d.events), next + |d.events|, k, detections[t := d][k])
  {
    var e := detections[t := d][k];
    assert k != t ==> Recorded(markers, next, k, e);
    forall i | 0 <= i < |e.events|
      ensures EventRecorded(Replaced(markers, next, t, d.events), k, e, i)
    {
      ReplacedRows(markers, next, t, d.events, e.first + i);
      assert k != t ==> EventRecorded(markers, k, e, i);
    }
  }

  lemma ReplacedSound(markers: map<nat, Marker>, next: nat, detections: map<nat, LastDetection>, t: nat, d: LastDetection)
    requires MarkersSound(markers, next, detections) && Below(markers, next) && Confident(d.events) && d.first == next
    ensures MarkersSound(Replaced(markers, next, t, d.events), next + |d.events|, detections[t := d])
  {
    var after, later := Replaced(markers, next, t, d.events), detections[t := d];
    forall id | id in after
      ensures MarkerSound(after[id], id, next + |d.events|, later)
    {
      ReplacedMarkerSound(markers, next, detections, t, d, id);
    }
    forall k | k in later
      ensures Recorded(after, next + |d.events|, k, later[k])
    {
      ReplacedRecorded(markers, next, detections, t, d, k);
    }
  }

  lemma ReviewedSound(markers: map<nat, Marker>, next: nat, detections: map<nat, LastDetection>, id: nat,
                      eventType: EventType, distance: real, note: string, actor: nat, at: int)
    requires MarkersSound(markers, next, detections) && id in markers
    ensures MarkersSound(markers[id := Reviewed(markers[id], eventType, distance, note, actor, at)], next, detections)
  {
    var after := markers[id := Reviewed(markers[id], eventType, distance, note, actor, at)];
    forall k | k in after
      ensures MarkerSound(after[k], k, next, detections)
    {
      assert MarkerSound(markers[k], k, next, detections);
    }
    forall t | t in detections
      ensures Recorded(after, next, t, detections[t])
    {
      assert Recorded(markers, next, t, detections[t]);
      forall i | 0 <= i < |detections[t].events|
        ensures EventRecorded(after, t, detections[t], i)
      {
        assert EventRecorded(markers, t, detections[t], i);
      }
    }
  }

  lemma SoundIsBelow(markers: map<nat, Marker>, next: nat, detections: map<nat, LastDetection>)
    requires MarkersSound(markers, next, detections)
    ensures Below(markers, next)
  {
    forall id | id in markers
      ensures id < next
    {
      assert MarkerSound(markers[id], id, next, detections);
    }
  }

  /** What one step does to the markers: a detection replaces them, a review writes one, nothing else touches them. */
  ghost predicate MarkersMove(s: State, step: Step, t: State) {
    if step.Commit? && step.call in s.calls && Replacing(s.calls[step.call]) && s.calls[step.call].request.traceId in s.traces then
      var d, id := DetectionOf(s.calls[step.call], s.nextMarker), s.calls[step.call].request.traceId;
      && t.markers == Replaced(s.markers, s.nextMarker, id, d.events)
      && t.nextMarker == s.nextMarker + |d.events|
      && t.detections == s.detections[id := d]
    else if step.Commit? && step.call in s.calls && Revising(s.calls[step.call]) && s.calls[step.call].request.markerId in s.markers then
      var r, p := s.calls[step.call].request, s.calls[step.call].phase;
      && t.markers == s.markers[r.markerId := Reviewed(s.markers[r.markerId], r.eventType, p.distance, r.note, r.actor, p.at)]
      && t.nextMarker == s.nextMarker && t.detections == s.detections
    else t.markers == s.markers && t.nextMarker == s.nextMarker && t.detections == s.detections
  }

  lemma CommitMovesMarkers(s: State, step: Step)
    requires step.Commit? && step.call in s.calls
    ensures MarkersMove(s, step, Committed(s, s.calls[step.call], step.newTrace))
  {
  }

  lemma StepMovesMarkers(s: State, step: Step)
    ensures MarkersMove(s, step, Next(s, step))
  {
    if step.Commit? && step.call in s.calls {
      CommitMovesMarkers(s, step);
    }
  }

  ghost predicate AllSound(s: State) { MarkersSound(s.markers, s.nextMarker, s.detections) }

  lemma ReplaceStepSound(s: State, call: Call)
    requires AllSound(s) && Replacing(call) && PhaseSound(s.traces, call)
    ensures var d := DetectionOf(call, s.nextMarker);
            MarkersSound(Replaced(s.markers, s.nextMarker, call.request.traceId, d.events), s.nextMarker + |d.events|,
                         s.detections[call.request.traceId := d])
  {
    ProcessedConfidence(call.phase.processing, s.traces[call.request.traceId], call.phase.route);
    SoundIsBelow(s.markers, s.nextMarker, s.detections);
    ReplacedSound(s.markers, s.nextMarker, s.detections, call.request.traceId, DetectionOf(call, s.nextMarker));
  }

  lemma MoveKeepsMarkers(s: State, step: Step, t: State)
    requires AllSound(s) && MarkersMove(s, step, t) && (step.Commit? ==> CallSound(s, step.call))
    ensures AllSound(t)
  {
    if step.Commit? && step.call in s.calls {
      var call := s.calls[step.call];
      if Replacing(call) && call.request.traceId in s.traces {
        ReplaceStepSound(s, call);
      } else if Revising(call) && call.request.markerId in s.markers {
        ReviewedSound(s.markers, s.nextMarker, s.detections, call.request.markerId, call.request.eventType,
                      call.phase.distance, call.request.note, call.request.actor, call.phase.at);
      }
    }
  }

  lemma StepKeepsMarkers(s: State, step: Step)
    requires AllSound(s) && (step.Commit? ==> CallSound(s, step.call))
    ensures AllSound(Next(s, step))
  {
    StepMovesMarkers(s, step);
    MoveKeepsMarkers(s, step, Next(s, step));
  }

  /**
   In every run every unreviewed marker shows the algorithm's values and comes from its trace's
   last committed detection, every event of that detection still has its marker with the
   algorithm's figures, and every confidence is a detected one.
   */
  lemma {:induction false} MarkersSoundInEveryRun(clock: int, maxPoints: nat, steps: seq<Step>)
    ensures AllSound(Exec(Initial(clock, maxPoints), steps))
  {
    if steps != [] {
      var before, step := Exec(Initial(clock, maxPoints), steps[..|steps| - 1]), steps[|steps| - 1];
      MarkersSoundInEveryRun(clock, maxPoints, steps[..|steps| - 1]);
      if step.Commit? {
        CallsSound(clock, maxPoints, steps[..|steps| - 1], step.call);
      }
      StepKeepsMarkers(before, step);
    }
  }

  // ----- what no run loses -----

  ghost predicate SameAlgorithmFigures(a: Marker, b: Marker) {
    && a.traceId == b.traceId && a.algorithmType == b.algorithmType && a.algorithmDistance == b.algorithmDistance
    && a.algorithmLoss == b.algorithmLoss && a.insertionLoss == b.insertionLoss
    && a.reflectance == b.reflectance && a.confidence == b.confidence
  }

  /** No review was lost, no marker's algorithm figures changed, and new markers took fresh identifiers. */
  ghost predicate MarkersKept(before: map<nat, Marker>, next: nat, after: map<nat, Marker>) {
    && (forall id :: id in before && before[id].reviewed ==> id in after && after[id].reviewed)
    && (forall id :: id in before && id in after ==> SameAlgorithmFigures(before[id], after[id]))
    && (forall id :: id in after && id !in before ==> next <= id)
  }

  ghost predicate Preserves(s: State, t: State) {
    && s.nextMarker <= t.nextMarker
    && SourcesKept(s.traces, t.traces)
    && MarkersKept(s.markers, s.nextMarker, t.markers)
  }

  lemma ReplacedKeeps(markers: map<nat, Marker>, next: nat, trace: nat, events: seq<DetectedEvent>)
    requires Below(markers, next)
    ensures MarkersKept(markers, next, Replaced(markers, next, trace, events))
  {
    forall id: nat
      ensures var all := Replaced(markers, next, trace, events);
              && (id in markers && markers[id].reviewed ==> id in all)
              && (id in markers && id in all ==> all[id] == markers[id])
              && (id in all && id !in markers ==> next <= id)
    {
      ReplacedRows(markers, next, trace, events, id);
    }
  }

  lemma MovePreserves(s: State, step: Step, t: State)
    requires Below(s.markers, s.nextMarker) && MarkersMove(s, step, t)
    ensures s.nextMarker <= t.nextMarker && MarkersKept(s.markers, s.nextMarker, t.markers)
  {
    if step.Commit? && step.call in s.calls && Replacing(s.calls[step.call]) {
      var call := s.calls[step.call];
      ReplacedKeeps(s.markers, s.nextMarker, call.request.traceId, call.phase.processing.found.events);
    }
  }

  lemma StepPreserves(s: State, step: Step)
    requires Below(s.markers, s.nextMarker)
    ensures Preserves(s, Next(s, step))
  {
    StepKeepsSources(s, step);
    StepMovesMarkers(s, step);
    MovePreserves(s, step, Next(s, step));
  }

  lemma PreservesTransitive(s: State, t: State, u: State)
    requires Preserves(s, t) && Preserves(t, u) && Below(s.markers, s.nextMarker)
    ensures Preserves(s, u)
  {
    forall id | id in s.markers && id in u.markers
      ensures SameAlgorithmFigures(s.markers[id], u.markers[id])
    {
      assert id in t.markers;
    }
  }

  lemma StepStillPreserves(s: State, t: State, step: Step)
    requires Preserves(s, t) && Below(s.markers, s.nextMarker) && Below(t.markers, t.nextMarker)
    ensures Preserves(s, Next(t, step))
  {
    StepPreserves(t, step);
    PreservesTransitive(s, t, Next(t, step));
  }

  lemma IdentifiersBelow(clock: int, maxPoints: nat, steps: seq<Step>)
    ensures var s := Exec(Initial(clock, maxPoints), steps); Below(s.markers, s.nextMarker)
  {
    var s := Exec(Initial(clock, maxPoints), steps);
    MarkersSoundInEveryRun(clock, maxPoints, steps);
    SoundIsBelow(s.markers, s.nextMarker, s.detections);
  }

  /**
   Between any two moments of any run: raw points stay, reviewed markers stay and stay reviewed,
   surviving markers keep the algorithm's figures, and identifiers are not reused.
   */
  lemma {:induction false} NothingIsLost(clock: int, maxPoints: nat, before: seq<Step>, after: seq<Step>)
    ensures Preserves(Exec(Initial(clock, maxPoints), before), Exec(Initial(clock, maxPoints), before + after))
  {
    var s := Exec(Initial(clock, maxPoints), before);
    IdentifiersBelow(clock, maxPoints, before);
    if after == [] {
      assert before + after == before;
    } else {
      var init, step := after[..|after| - 1], after[|after| - 1];
      NothingIsLost(clock, maxPoints, before, init);
      assert (before + after)[..|before + after| - 1] == before + init;
      IdentifiersBelow(clock, maxPoints, before + init);
      StepStillPreserves(s, Exec(Initial(clock, maxPoints), before + init), step);
    }
  }

  // ----- consequences for a reader of the tables -----

  /** The marker shows the event exactly as the algorithm computed it. */
  ghost predicate Shows(m: Marker, traceId: nat, e: DetectedEvent) {
    RecordsEvent(m, traceId, e) && m.eventType == e.eventType && m.distance == e.distance
  }

  /** The marker shows one of the events of its trace's last detection. */
  ghost predicate ShowsLast(m: Marker, id: nat, detections: map<nat, LastDetection>) {
    && m.traceId in detections
    && var d, k := detections[m.traceId], id - detections[m.traceId].first;
       0 <= k < |d.events| && Shows(m, m.traceId, d.events[k])
  }

  lemma SoundShowsLast(markers: map<nat, Marker>, next: nat, detections: map<nat, LastDetection>, id: nat)
    requires MarkersSound(markers, next, detections) && id in markers && !markers[id].reviewed
    ensures ShowsLast(markers[id], id, detections)
  {
    var m := markers[id];
    assert MarkerSound(m, id, next, detections);
    var d := detections[m.traceId];
    assert Recorded(markers, next, m.traceId, d);
    assert EventRecorded(markers, m.traceId, d, id - d.first);
  }

  /**
   In every run an unreviewed marker can be recomputed: it shows an event of its trace's last
   detection, and rerunning the pipeline on that trace as stored, with the route that detection
   read, yields that detection's events.
   */
  lemma UnreviewedMarkerIsRecomputed(clock: int, maxPoints: nat, steps: seq<Step>, id: nat)
    ensures var s := Exec(Initial(clock, maxPoints), steps);
            id in s.markers && !s.markers[id].reviewed ==>
              ShowsLast(s.markers[id], id, s.detections) && DetectionSound(s, s.markers[id].traceId)
  {
    var s := Exec(Initial(clock, maxPoints), steps);
    MarkersSoundInEveryRun(clock, maxPoints, steps);
    if id in s.markers && !s.markers[id].reviewed {
      EveryDetectionReproduces(clock, maxPoints, steps, s.markers[id].traceId);
      SoundShowsLast(s.markers, s.nextMarker, s.detections, id);
    }
  }
}
