/** When an import is accepted, and why a detection on a stored trace then depends on its parameters only. */
module DetectionReadiness {
  import opened Results
  import opened Distance
  import opened Detect
  import opened TraceRepository
  import opened EvidenceProtocol
  import opened EvidenceLaws
  import opened Collections
  import Denoise

  // ----- one call -----

  predicate WindowAllowed(window: int) { 1 <= window <= 31 }

  /** The last sample lies at five percent of the route or farther. */
  predicate Covers(request: Request, route: Route)
    requires request.ImportTrace? && LineFor(request, route).Convertible()
  {
    Metres(|request.points| - 1, LineFor(request, route)) >= route.length * 0.05
  }

  function LineFor(request: Request, route: Route): Line
    requires request.ImportTrace?
  {
    Line(request.sampleIntervalNS, route.refractiveIndex, route.length)
  }

  predicate Importable(request: Request, route: Route)
    requires request.ImportTrace?
  {
    && |request.points| >= 16 && (forall i :: 0 <= i < |request.points| ==> -200.0 <= request.points[i] <= 100.0)
    && (request.denoiseWindow == 0 || WindowAllowed(request.denoiseWindow))
    && LineFor(request, route).Convertible() && Covers(request, route)
  }

  lemma FilterAcceptsIff(points: seq<real>, window: int)
    ensures Denoise.MovingMedianSpec(points, window).Ok? <==> |points| >= 3 && WindowAllowed(window)
    ensures Denoise.MovingMedianSpec(points, window).Ok? ==> |Denoise.MovingMedianSpec(points, window).value| == |points|
  {
  }

  lemma NoiseAcceptsIff(points: seq<real>)
    ensures NoiseFloorSpec(points).Ok? <==> |points| >= 16
  {
  }

  /** An import passes all checks exactly when these conditions hold. */
  lemma ImportAcceptedIff(request: Request, maxPoints: nat, routes: map<nat, Route>)
    requires request.ImportTrace?
    ensures ImportOutcome(request, maxPoints, routes).Ok?
            <==> |request.points| <= maxPoints && request.routeId in routes && Importable(request, routes[request.routeId])
  {
    var window := FirstNonZero(0, request.denoiseWindow, 0, DEFAULT_WINDOW);
    FilterAcceptsIff(request.points, window);
    if Denoise.MovingMedianSpec(request.points, window).Ok? {
      NoiseAcceptsIff(Denoise.MovingMedianSpec(request.points, window).value);
    }
  }

  /** The parameters that a detection will use are acceptable. */
  predicate ParametersAllowed(request: Request, trace: Trace)
    requires request.DetectEvents?
  {
    && (if request.denoiseWindow != 0 then WindowAllowed(request.denoiseWindow) else trace.denoiseWindow == 0 || WindowAllowed(trace.denoiseWindow))
    && (if request.peakThreshold != 0.0 then request.peakThreshold > 0.0 else trace.peakThreshold >= 0.0)
    && (if request.mergeWindow != 0 then request.mergeWindow >= 1 else trace.mergeWindow >= 0)
  }

  lemma DetectAcceptsIff(points: seq<real>, threshold: real, merge: int, line: Line)
    requires line.Convertible()
    ensures DetectSpec(points, threshold, merge, line).Ok? <==> |points| >= 16 && threshold > 0.0 && merge >= 1
  {
  }

  lemma ParametersAllowedIff(request: Request, trace: Trace)
    requires request.DetectEvents?
    ensures ParametersAllowed(request, trace)
            <==> && WindowAllowed(FirstNonZero(0, request.denoiseWindow, trace.denoiseWindow, DEFAULT_WINDOW))
                 && FirstNonZero(0.0, request.peakThreshold, trace.peakThreshold, DEFAULT_THRESHOLD) > 0.0
                 && FirstNonZero(0, request.mergeWindow, trace.mergeWindow, DEFAULT_MERGE) >= 1
  {
  }

  lemma OutcomeOkWhen(request: Request, trace: Trace, route: Route, window: int, threshold: real, merge: int)
    requires request.DetectEvents? && |trace.raw| >= 16 && LineOf(trace, route).Convertible()
    requires window == FirstNonZero(0, request.denoiseWindow, trace.denoiseWindow, DEFAULT_WINDOW)
    requires threshold == FirstNonZero(0.0, request.peakThreshold, trace.peakThreshold, DEFAULT_THRESHOLD)
    requires merge == FirstNonZero(0, request.mergeWindow, trace.mergeWindow, DEFAULT_MERGE)
    ensures DetectOutcome(request, trace, route).Ok? <==> WindowAllowed(window) && threshold > 0.0 && merge >= 1
  {
    FilterAcceptsIff(trace.raw, window);
    if Denoise.MovingMedianSpec(trace.raw, window).Ok? {
      var filtered := Denoise.MovingMedianSpec(trace.raw, window).value;
      NoiseAcceptsIff(filtered);
      DetectAcceptsIff(filtered, threshold, merge, LineOf(trace, route));
    }
  }

  lemma OutcomeOkIff(request: Request, trace: Trace, route: Route)
    requires request.DetectEvents? && |trace.raw| >= 16 && LineOf(trace, route).Convertible()
    ensures DetectOutcome(request, trace, route).Ok? <==> ParametersAllowed(request, trace)
  {
    ParametersAllowedIff(request, trace);
    OutcomeOkWhen(request, trace, route,
                  FirstNonZero(0, request.denoiseWindow, trace.denoiseWindow, DEFAULT_WINDOW),
                  FirstNonZero(0.0, request.peakThreshold, trace.peakThreshold, DEFAULT_THRESHOLD),
                  FirstNonZero(0, request.mergeWindow, trace.mergeWindow, DEFAULT_MERGE));
  }

  // ----- every run -----

  ghost predicate Detectable(trace: Trace, routes: map<nat, Route>) {
    |trace.raw| >= 16 && trace.sampleIntervalNS > 0.0 && trace.routeId in routes
  }

  ghost predicate RoutesAllowed(routes: map<nat, Route>) { forall id :: id in routes ==> routes[id].Allowed() }

  ghost predicate Ready(s: State) {
    && RoutesAllowed(s.routes)
    && (forall id :: id in s.traces ==> Detectable(s.traces[id], s.routes))
    && (forall c :: c in s.calls && Inserting(s.calls[c]) ==> Detectable(s.calls[c].phase.trace, s.routes))
  }

  lemma StepMovesRoutes(s: State, step: Step)
    ensures Next(s, step).routes ==
            if step.PutRoute? && step.route.Allowed() then s.routes[step.id := step.route] else s.routes
  {
  }

  lemma LoadedIsDetectable(s: State, call: Call)
    requires RoutesAllowed(s.routes) && Inserting(call.(phase := AfterLoad(s, call)))
    ensures Detectable(AfterLoad(s, call).trace, s.routes)
  {
    ImportAcceptedIff(call.request, s.maxPoints, s.routes);
  }

  lemma PrepareKeepsInserting(s: State, call: Call)
    requires Inserting(call.(phase := AfterPrepare(s, call)))
    ensures AfterPrepare(s, call) == call.phase
  {
  }

  lemma CallStaysReady(s: State, step: Step, c: nat)
    requires Ready(s) && c in Next(s, step).calls && Inserting(Next(s, step).calls[c])
    ensures Detectable(Next(s, step).calls[c].phase.trace, Next(s, step).routes)
  {
    StepMovesCall(s, step, c);
    StepMovesRoutes(s, step);
    if c in s.calls {
      if step == Load(c) && s.calls[c].phase.Begun? {
        LoadedIsDetectable(s, s.calls[c]);
      } else if step == Prepare(c) {
        PrepareKeepsInserting(s, s.calls[c]);
      }
    }
  }

  lemma TraceStaysReady(s: State, step: Step, id: nat)
    requires Ready(s) && id in Next(s, step).traces
    ensures Detectable(Next(s, step).traces[id], Next(s, step).routes)
  {
    StepMovesRoutes(s, step);
    StepMovesTraces(s, step);
    if step.Commit? && step.call in s.calls {
      CommitMovesTrace(s, s.calls[step.call], step.newTrace, id);
    }
  }

  lemma StepKeepsReady(s: State, step: Step)
    requires Ready(s)
    ensures Ready(Next(s, step))
  {
    StepMovesRoutes(s, step);
    forall id | id in Next(s, step).traces
      ensures Detectable(Next(s, step).traces[id], Next(s, step).routes)
    {
      TraceStaysReady(s, step, id);
    }
    forall c | c in Next(s, step).calls && Inserting(Next(s, step).calls[c])
      ensures Detectable(Next(s, step).calls[c].phase.trace, Next(s, step).routes)
    {
      CallStaysReady(s, step, c);
    }
  }

  lemma {:induction false} AlwaysReady(clock: int, maxPoints: nat, steps: seq<Step>)
    ensures Ready(Exec(Initial(clock, maxPoints), steps))
  {
    if steps != [] {
      AlwaysReady(clock, maxPoints, steps[..|steps| - 1]);
      StepKeepsReady(Exec(Initial(clock, maxPoints), steps[..|steps| - 1]), steps[|steps| - 1]);
    }
  }

  lemma ReadyDetects(s: State, request: Request, id: nat)
    requires Ready(s) && request.DetectEvents? && id in s.traces
    ensures var trace := s.traces[id];
            && trace.routeId in s.routes
            && (DetectOutcome(request, trace, s.routes[trace.routeId]).Ok? <==> ParametersAllowed(request, trace))
  {
    assert Detectable(s.traces[id], s.routes);
    OutcomeOkIff(request, s.traces[id], s.routes[s.traces[id].routeId]);
  }

  /**
   In every run a detection on a stored trace finds its route, and it succeeds exactly when the
   parameters it ends up with are acceptable: neither the samples nor the geometry of what is
   stored can make it fail, whatever was imported and however the routes were edited since.
   */
  lemma {:induction false} StoredTracesAreDetectable(clock: int, maxPoints: nat, steps: seq<Step>, request: Request, id: nat)
    requires request.DetectEvents? && id in Exec(Initial(clock, maxPoints), steps).traces
    ensures var s := Exec(Initial(clock, maxPoints), steps);
            var trace := s.traces[id];
            && trace.routeId in s.routes
            && (DetectOutcome(request, trace, s.routes[trace.routeId]).Ok? <==> ParametersAllowed(request, trace))
  {
    AlwaysReady(clock, maxPoints, steps);
    ReadyDetects(Exec(Initial(clock, maxPoints), steps), request, id);
  }
}
