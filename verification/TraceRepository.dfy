/** model/trace_capture.go, model/fiber_route.go and repository/trace_repository.go. */
module TraceRepository {
  import opened Results
  import opened Distance

  /** The columns of a route that detection and import read. */
  datatype Route = Route(length: real, refractiveIndex: real) {
    /** The check constraints of the table. */
    predicate Allowed() {
      0.0 < length <= 500000.0 && 1.3 <= refractiveIndex <= 1.7
    }
  }

  datatype Trace = Trace(
    routeId: nat,
    sampleIntervalNS: real,
    raw: seq<real>,
    processed: seq<real>,
    noiseFloor: real,
    denoiseWindow: int,
    peakThreshold: real,
    mergeWindow: int)

  function LineOf(trace: Trace, route: Route): Line {
    Line(trace.sampleIntervalNS, route.refractiveIndex, route.length)
  }

  function Reprocessed(trace: Trace, processed: seq<real>, noise: real, window: int, threshold: real, merge: int): Trace {
    trace.(processed := processed, noiseFloor := noise, denoiseWindow := window, peakThreshold := threshold, mergeWindow := merge)
  }

  predicate OnRoute(traces: map<nat, Trace>, traceId: nat, routeId: nat) {
    traceId in traces && traces[traceId].routeId == routeId
  }

  class TraceRepository {
    var traces: map<nat, Trace>

    constructor ()
      ensures traces == map[]
    {
      traces := map[];
    }

    method Create(id: nat, trace: Trace)
      requires id !in traces
      modifies this
      ensures traces == old(traces)[id := trace]
    {
      traces := traces[id := trace];
    }

    method Get(id: nat) returns (r: Result<Trace>)
      ensures r == if id in traces then Ok(traces[id]) else Err("record not found")
    {
      if id !in traces {
        return Err("record not found");
      }
      return Ok(traces[id]);
    }

    method BelongsToRoute(traceId: nat, routeId: nat) returns (belongs: bool)
      ensures belongs == OnRoute(traces, traceId, routeId)
    {
      belongs := traceId in traces && traces[traceId].routeId == routeId;
    }

    method UpdateProcessing(id: nat, processed: seq<real>, noise: real, window: int, threshold: real, merge: int)
      returns (changed: bool)
      modifies this
      ensures changed == (id in old(traces))
      ensures traces == if changed then old(traces)[id := Reprocessed(old(traces)[id], processed, noise, window, threshold, merge)] else old(traces)
      ensures changed ==> traces[id] == old(traces)[id].(processed := processed, noiseFloor := noise, denoiseWindow := window,
                                                         peakThreshold := threshold, mergeWindow := merge)
    {
      changed := id in traces;
      if changed {
        traces := traces[id := traces[id].(processed := processed, noiseFloor := noise, denoiseWindow := window,
                                           peakThreshold := threshold, mergeWindow := merge)];
      }
    }
  }
}
