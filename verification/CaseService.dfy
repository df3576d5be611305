/**
 service/case_service.go in its own control flow.  Each transaction or read is a method that
 performs exactly one step of CaseProtocol; between two of them other calls, of this service or
 of the trace and event services, may run (Others).  So a whole call is a run of WholeSystem.
 The program counters, the epoch owner and the state of the other services' calls are ghost:
 the program never reads them.
 */
module CaseService {
  import opened Results
  import opened CaseStatus
  import opened Compare
  import opened CaseRepository
  import opened TraceRepository
  import opened EventRepository
  import opened CaseProtocol
  import opened CaseLaws
  import opened CaseWriteLaws
  import WholeSystem
  import Evidence = EvidenceProtocol
  import EvidenceLaws

  class CaseService {
    const cases: CaseRepository
    const traces: TraceRepository
    const events: EventRepository
    var clock: int
    var audits: seq<Entry>
    ghost var calls: map<nat, Call>
    ghost var owner: map<nat, nat>
    ghost var evidence: Evidence.State

    ghost function Value(): State
      reads this, cases
    {
      State(clock, cases.rows, audits, calls, owner)
    }

    ghost function System(): WholeSystem.State
      reads this, cases
    {
      WholeSystem.State(evidence, Value())
    }

    /** The ghost state of the other services is about the rows that this one reads. */
    ghost predicate Valid()
      reads this`evidence, traces, events
    {
      evidence.traces == traces.traces && evidence.markers == events.markers
    }

    constructor (now: int, ghost maxPoints: nat)
      ensures Valid() && System() == WholeSystem.Initial(now, maxPoints)
      ensures fresh(cases) && fresh(traces) && fresh(events)
    {
      cases := new CaseRepository();
      traces := new TraceRepository();
      events := new EventRepository();
      clock, audits, calls, owner := now, [], map[], map[];
      evidence := Evidence.Initial(now, maxPoints);
    }

    // ----- the environment -----

    /** Any steps of other calls, and of the clock; the call c itself does not move. */
    method Others(ghost c: nat)
      requires Valid()
      modifies this, cases, traces, events
      ensures Valid() && WholeSystem.Reaches(old(System()), System())
      ensures c in old(calls) ==> c in calls && calls[c] == old(calls)[c]
      ensures c !in old(calls) ==> c !in calls
    {
      WholeSystem.ReachesItself(System());
    }

    // ----- reads and transactions -----

    /** The fallbacks of a new case, and its insertion with the audit entry; the database rejects an identifier that is taken. */
    method InsertCase(id: nat, routeId: nat, baselineTraceId: nat, currentTraceId: nat, tolerance: real, lossIncrease: real, actor: nat)
      returns (r: Result<Case>)
      requires baselineTraceId != currentTraceId
      modifies this`audits, cases
      ensures Value() == Next(old(Value()), Create(id, routeId, baselineTraceId, currentTraceId, tolerance, lossIncrease, actor, true))
      ensures r == if id in old(cases.rows) then Err("create case failed")
                   else Ok(NewCase(Create(id, routeId, baselineTraceId, currentTraceId, tolerance, lossIncrease, actor, true), clock))
      ensures r.Ok? ==> id in cases.rows && cases.rows[id] == r.value
      ensures r.Ok? ==> audits == old(audits) + [Entry(actor, Created, id, Nothing, Record(r.value))]
    {
      if id in cases.rows {
        return Err("create case failed");
      }
      var savedTolerance, savedLoss := tolerance, lossIncrease;
      if savedTolerance == 0.0 {
        savedTolerance := 25.0;
      }
      if savedLoss == 0.0 {
        savedLoss := 0.5;
      }
      var item := Case(routeId, baselineTraceId, currentTraceId, Draft, None, None, "", None, None, "",
                       Parameters(savedTolerance, savedLoss), [], 1, actor, clock);
      cases.Create(id, item);
      audits := audits + [Entry(actor, Created, id, Nothing, Record(item))];
      return Ok(item);
    }

    method Enter(ghost c: nat, ghost request: Request)
      requires c !in calls
      modifies this`calls
      ensures Value() == Next(old(Value()), Invoke(c, request))
    {
      calls := calls[c := Call(request, Begun)];
    }

    method Load(ghost c: nat, id: nat) returns (r: Result<Case>)
      requires c in calls && calls[c].request.caseId == id && (calls[c].phase.Begun? || calls[c].phase.AtReload?)
      modifies this`calls
      ensures Value() == Next(old(Value()), Read(c))
      ensures r == if id in cases.rows then Ok(cases.rows[id]) else Err("record not found")
    {
      r := cases.Get(id);
      calls := calls[c := calls[c].(phase := AfterRead(calls[c], cases.rows, clock))];
    }

    method RecoverTransaction(ghost c: nat, id: nat, actor: nat) returns (recovered: bool)
      requires c in calls && calls[c].request.Analyze? && calls[c].phase.AtRecovery?
      requires calls[c].request.caseId == id && calls[c].request.actor == actor
      modifies this`audits, this`calls, this`owner, cases
      ensures Value() == Next(old(Value()), Recover(c))
      ensures recovered <==> EffectOf(old(Value()), Recover(c)).Write?
    {
      recovered := cases.RecoverStaleAnalysis(id, clock - LEASE, clock);
      if recovered {
        audits := audits + [Entry(actor, AnalysisRecovered, id, StatusOnly(Analyzing), StatusOnly(Draft))];
      }
      calls := calls[c := calls[c].(phase := if recovered then AtReload else Finished)];
    }

    method StartTransaction(ghost c: nat, id: nat, item: Case, actor: nat) returns (started: bool)
      requires c in calls && calls[c].request.Analyze? && calls[c].phase == AtStart(item)
      requires calls[c].request.caseId == id && calls[c].request.actor == actor
      modifies this`audits, this`calls, this`owner, cases
      ensures Value() == Next(old(Value()), Start(c))
      ensures started <==> EffectOf(old(Value()), Start(c)).Write?
    {
      started := cases.Transition(id, item.version, Draft, Analyzing, NO_UPDATES.(analysisError := Some("")), clock);
      if started {
        audits := audits + [Entry(actor, AnalysisStarted, id, StatusOnly(item.status), StatusOnly(Analyzing))];
        owner := owner[id := c];
      }
      calls := calls[c := calls[c].(phase := if started then AtBaseline(Started(item), clock) else Finished)];
    }

    method SaveTransaction(ghost c: nat, id: nat, item: Case, analysis: Analysis, parameters: Parameters, actor: nat) returns (saved: bool)
      requires c in calls && calls[c].request.Analyze? && calls[c].phase.AtSave?
      requires calls[c].phase.item == item && calls[c].phase.analysis == analysis
      requires calls[c].request.caseId == id && calls[c].request.actor == actor && parameters == Effective(calls[c].request, item.parameters)
      modifies this`audits, this`calls, this`owner, cases
      ensures Value() == Next(old(Value()), Save(c))
      ensures saved <==> EffectOf(old(Value()), Save(c)).Write?
    {
      match analysis {
        case Failed(error) =>
          saved := cases.SaveAnalysis(id, Draft, NO_UPDATES.(analysisError := Some(error)), clock);
          if saved {
            audits := audits + [Entry(actor, AnalysisFailed, id, Nothing, ErrorText(error))];
          }
        case Found(differences) =>
          var primary := PrimaryDifference(differences);
          var updates := NO_UPDATES.(differences := Some(differences), parameters := Some(parameters), analysisError := Some(""));
          if primary.Some? {
            updates := updates.(estimate := Some(primary.value.distance), uncertainty := Some(primary.value.uncertainty));
          }
          saved := cases.SaveAnalysis(id, PendingReview, updates, clock);
          if saved {
            audits := audits + [Entry(actor, AnalysisCompleted, id, Nothing, Outcome(|differences|, parameters))];
          }
      }
      calls := calls[c := calls[c].(phase := Finished)];
    }

    method CommitTransaction(ghost c: nat, request: Request, item: Case, at: int, from: Status, to: Status, updates: Updates, after: Snapshot)
      returns (changed: bool)
      requires c in calls && calls[c] == Call(request, AtCommit(item, at)) && !request.Analyze?
      requires from == CommitFrom(request) && to == CommitTo(request) && updates == CommitUpdates(request, at)
      requires after == CommitEntry(request, item).after
      modifies this`audits, this`calls, this`owner, cases
      ensures Value() == Next(old(Value()), Commit(c))
      ensures changed <==> EffectOf(old(Value()), Commit(c)).Write?
    {
      changed := cases.Transition(request.caseId, request.version, from, to, updates, clock);
      if changed {
        audits := audits + [Entry(request.actor, if request.Confirm? then CaseConfirmed else CaseClosed, request.caseId, Record(item), after)];
      }
      calls := calls[c := calls[c].(phase := Finished)];
    }

    method TakeBaseline(ghost c: nat, events: seq<ComparableEvent>)
      requires c in calls && calls[c].request.Analyze? && calls[c].phase.AtBaseline?
      modifies this`calls
      ensures Value() == Next(old(Value()), LoadBaseline(c, events))
    {
      calls := calls[c := calls[c].(phase := AtCurrent(calls[c].phase.item, calls[c].phase.startedAt, events))];
    }

    method GiveUp(ghost c: nat, error: string) returns (analysis: Analysis)
      requires c in calls && calls[c].request.Analyze? && (calls[c].phase.AtBaseline? || calls[c].phase.AtCurrent?)
      modifies this`calls
      ensures Value() == Next(old(Value()), LoadFails(c, error)) && analysis == Failed(error)
    {
      analysis := Failed(error);
      calls := calls[c := calls[c].(phase := AtSave(calls[c].phase.item, calls[c].phase.startedAt, analysis))];
    }

    /** The part of compareEvents after its two queries. */
    method Compare(ghost c: nat, baseline: seq<ComparableEvent>, current: seq<ComparableEvent>, parameters: Parameters)
      returns (analysis: Analysis, ghost sorted: seq<Difference>)
      requires c in calls && calls[c].request.Analyze? && calls[c].phase.AtCurrent?
      requires calls[c].phase.baseline == baseline && parameters == Effective(calls[c].request, calls[c].phase.item.parameters)
      modifies this`calls
      ensures Value() == Next(old(Value()), LoadCurrent(c, current, sorted))
      ensures c in calls && calls[c] == old(calls)[c].(phase := AtSave(old(calls)[c].phase.item, old(calls)[c].phase.startedAt, analysis))
    {
      sorted := [];
      if |baseline| == 0 || |current| == 0 {
        analysis := Failed("both traces require detected events");
      } else {
        var r := CompareBaseline(baseline, current, parameters.tolerance, parameters.lossIncrease);
        match r {
          case Err(error) => analysis := Failed(error);
          case Ok(differences) =>
            analysis := Found(differences);
            sorted := differences;
        }
      }
      calls := calls[c := calls[c].(phase := AtSave(calls[c].phase.item, calls[c].phase.startedAt, analysis))];
    }

    /** One of compareEvents' two queries with its conversion; the query may fail with any error. */
    method LoadEvents(traceId: nat, fault: Option<string>) returns (r: Result<seq<ComparableEvent>>, ghost listing: seq<nat>)
      ensures fault.Some? ==> r == Err(fault.value)
      ensures fault.None? ==> r.Ok? && WholeSystem.Listed(events.markers, traceId, listing, r.value)
      ensures fault.None? ==> |r.value| == |listing| && forall k :: 0 <= k < |listing| ==> Converts(r.value[k], events.markers, listing[k])
    {
      listing := [];
      if fault.Some? {
        return Err(fault.value), listing;
      }
      var ids := events.ForTrace(traceId);
      listing := ids;
      var out: seq<ComparableEvent> := [];
      for i := 0 to |ids|
        invariant out == Comparable(events.markers, ids)[..i]
      {
        var m := events.markers[ids[i]];
        out := out + [ComparableEvent(ids[i], m.distance, m.insertionLoss, m.confidence)];
      }
      r := Ok(out);
    }

    // ----- whole calls -----

    /** From the outside: a run of the whole system in which the call has come to the given phase. */
    twostate predicate Ran(c: nat, request: Request, phase: Phase)
      reads this, cases, traces, events
    {
      Valid() && WholeSystem.Reaches(old(System()), System()) && c in calls && calls[c] == Call(request, phase)
    }

    /**
     A whole Create call: the ownership queries and the insertion, with anything in between; the
     case it returns is the one stored and audited.
     */
    method CreateCase(ghost c: nat, id: nat, routeId: nat, baselineTraceId: nat, currentTraceId: nat, tolerance: real, lossIncrease: real, actor: nat)
      returns (r: Result<Case>)
      requires Valid()
      modifies this, cases, traces, events
      ensures Valid() && WholeSystem.Reaches(old(System()), System())
      ensures r.Ok? ==> id in cases.rows && cases.rows[id] == r.value
      ensures r.Ok? ==>
                r.value == Case(routeId, baselineTraceId, currentTraceId, Draft, None, None, "", None, None, "",
                                Parameters(if tolerance != 0.0 then tolerance else 25.0, if lossIncrease != 0.0 then lossIncrease else 0.5),
                                [], 1, actor, clock)
      ensures r.Ok? ==> baselineTraceId != currentTraceId && OnRoute(traces.traces, baselineTraceId, routeId) && OnRoute(traces.traces, currentTraceId, routeId)
      ensures r.Ok? ==> audits != [] && audits[|audits| - 1] == Entry(actor, Created, id, Nothing, Record(r.value))
    {
      ghost var s := System();
      WholeSystem.ReachesItself(s);
      if baselineTraceId == currentTraceId {
        return Err("baseline and current traces must differ");
      }
      var belongs := traces.BelongsToRoute(baselineTraceId, routeId);
      if belongs {
        belongs := traces.BelongsToRoute(currentTraceId, routeId);
      }
      if !belongs {
        return Err("both traces must belong to the selected route");
      }
      Others(c);
      ghost var s1 := System();
      StillOnRoute(s, s1, baselineTraceId, routeId);
      StillOnRoute(s, s1, currentTraceId, routeId);
      r := InsertCase(id, routeId, baselineTraceId, currentTraceId, tolerance, lossIncrease, actor);
      WholeSystem.ReachesByCases(s, s1, Create(id, routeId, baselineTraceId, currentTraceId, tolerance, lossIncrease, actor, true), []);
    }

    /** Analyze up to its status checks: the row it will start from, recovered if its lease had run out. */
    method Prepare(ghost c: nat, request: Request) returns (r: Result<Case>)
      requires Valid() && c !in calls && request.Analyze?
      modifies this, cases, traces, events
      ensures Ran(c, request, if r.Ok? then AtStart(r.value) else Finished)
      ensures r.Ok? ==> request.caseId in cases.rows && cases.rows[request.caseId] == r.value && r.value.status == Draft
    {
      ghost var s := System();
      WholeSystem.ReachesItself(s);
      Enter(c, request);
      WholeSystem.ReachesByCases(s, s, Invoke(c, request), []);
      ghost var s1 := System();
      r := FirstLoad(c, request);
      WholeSystem.ReachesFurther(s, s1, System());
    }

    method FirstLoad(ghost c: nat, request: Request) returns (r: Result<Case>)
      requires Valid() && c in calls && calls[c] == Call(request, Begun) && request.Analyze?
      modifies this, cases, traces, events
      ensures Ran(c, request, if r.Ok? then AtStart(r.value) else Finished)
      ensures r.Ok? ==> request.caseId in cases.rows && cases.rows[request.caseId] == r.value && r.value.status == Draft
    {
      ghost var s := System();
      WholeSystem.ReachesItself(s);
      r := Load(c, request.caseId);
      WholeSystem.ReachesByCases(s, s, Read(c), []);
      if r.Err? {
        return;
      }
      var item := r.value;
      if item.status == Analyzing {
        ghost var s1 := System();
        r := RecoverAndReload(c, request, item);
        WholeSystem.ReachesFurther(s, s1, System());
        return;
      }
      if item.status == Closed {
        return Err("closed cases cannot be analyzed");
      }
      if !CanTransition(item.status, Analyzing) {
        return Err("case must be in draft before analysis");
      }
    }

    method RecoverAndReload(ghost c: nat, request: Request, item: Case) returns (r: Result<Case>)
      requires Valid() && c in calls && calls[c] == Call(request, AtRecovery(item)) && request.Analyze?
      modifies this, cases, traces, events
      ensures Ran(c, request, if r.Ok? then AtStart(r.value) else Finished)
      ensures r.Ok? ==> request.caseId in cases.rows && cases.rows[request.caseId] == r.value && r.value.status == Draft
    {
      ghost var s := System();
      Others(c);
      ghost var s1 := System();
      var recovered := RecoverTransaction(c, request.caseId, request.actor);
      WholeSystem.ReachesByCases(s, s1, Recover(c), []);
      if !recovered {
        return Err("case must be in draft before analysis");
      }
      ghost var s2 := System();
      r := Reload(c, request);
      WholeSystem.ReachesFurther(s, s2, System());
    }

    method Reload(ghost c: nat, request: Request) returns (r: Result<Case>)
      requires Valid() && c in calls && calls[c] == Call(request, AtReload) && request.Analyze?
      modifies this, cases, traces, events
      ensures Ran(c, request, if r.Ok? then AtStart(r.value) else Finished)
      ensures r.Ok? ==> request.caseId in cases.rows && cases.rows[request.caseId] == r.value && r.value.status == Draft
    {
      ghost var s := System();
      Others(c);
      ghost var s1 := System();
      r := Load(c, request.caseId);
      WholeSystem.ReachesByCases(s, s1, Read(c), []);
      if r.Err? {
        return;
      }
      if r.value.status == Closed {
        return Err("closed cases cannot be analyzed");
      }
      if !CanTransition(r.value.status, Analyzing) {
        return Err("case must be in draft before analysis");
      }
    }

    /** Analyze's opening transaction. */
    method Launch(ghost c: nat, request: Request, item: Case) returns (started: bool, ghost startedAt: int)
      requires Valid() && c in calls && calls[c] == Call(request, AtStart(item)) && request.Analyze?
      modifies this, cases, traces, events
      ensures Ran(c, request, if started then AtBaseline(Started(item), startedAt) else Finished)
    {
      ghost var s := System();
      Others(c);
      ghost var s1 := System();
      started := StartTransaction(c, request.caseId, item, request.actor);
      startedAt := s1.cases.clock;
      WholeSystem.ReachesByCases(s, s1, Start(c), []);
    }

    /** compareEvents: both queries read the markers as they are stored at that moment. */
    method CompareEvents(ghost c: nat, request: Request, item: Case, ghost startedAt: int, faults: (Option<string>, Option<string>), parameters: Parameters)
      returns (analysis: Analysis)
      requires Valid() && c in calls && calls[c] == Call(request, AtBaseline(item, startedAt)) && request.Analyze?
      requires parameters == Effective(request, item.parameters)
      modifies this, cases, traces, events
      ensures Ran(c, request, AtSave(item, startedAt, analysis))
    {
      ghost var s := System();
      Others(c);
      ghost var s1 := System();
      var baseline, listing := LoadEvents(item.baselineTraceId, faults.0);
      if baseline.Err? {
        analysis := GiveUp(c, baseline.error);
        WholeSystem.ReachesByCases(s, s1, LoadFails(c, baseline.error), []);
        return;
      }
      TakeBaseline(c, baseline.value);
      WholeSystem.ReachesByCases(s, s1, LoadBaseline(c, baseline.value), listing);
      ghost var s2 := System();
      analysis := CompareCurrent(c, request, item, startedAt, baseline.value, faults.1, parameters);
      WholeSystem.ReachesFurther(s, s2, System());
    }

    method CompareCurrent(ghost c: nat, request: Request, item: Case, ghost startedAt: int,
                          baseline: seq<ComparableEvent>, fault: Option<string>, parameters: Parameters)
      returns (analysis: Analysis)
      requires Valid() && c in calls && calls[c] == Call(request, AtCurrent(item, startedAt, baseline)) && request.Analyze?
      requires parameters == Effective(request, item.parameters)
      modifies this, cases, traces, events
      ensures Ran(c, request, AtSave(item, startedAt, analysis))
    {
      ghost var s := System();
      Others(c);
      ghost var s1 := System();
      var current, listing := LoadEvents(item.currentTraceId, fault);
      if current.Err? {
        analysis := GiveUp(c, current.error);
        WholeSystem.ReachesByCases(s, s1, LoadFails(c, current.error), []);
        return;
      }
      ghost var sorted;
      analysis, sorted := Compare(c, baseline, current.value, parameters);
      WholeSystem.ReachesByCases(s, s1, LoadCurrent(c, current.value, sorted), listing);
    }

    /** An entry after the first n that is of the given kind. */
    ghost predicate Logged(n: nat, entry: Entry -> bool)
      reads this`audits
    {
      exists k :: n <= k < |audits| && entry(audits[k])
    }

    /** Analyze's closing transaction. */
    method Conclude(ghost c: nat, request: Request, item: Case, ghost startedAt: int, analysis: Analysis, parameters: Parameters)
      returns (saved: bool)
      requires Valid() && c in calls && calls[c] == Call(request, AtSave(item, startedAt, analysis)) && request.Analyze?
      requires parameters == Effective(request, item.parameters)
      modifies this, cases, traces, events
      ensures Ran(c, request, Finished)
      ensures |old(audits)| <= |audits|
      ensures saved && analysis.Found? ==> Logged(|old(audits)|, e => Completes(e, request, parameters))
    {
      ghost var s := System();
      Others(c);
      ghost var s1 := System();
      SystemEvolves(s, s1);
      saved := SaveTransaction(c, request.caseId, item, analysis, parameters, request.actor);
      WholeSystem.ReachesByCases(s, s1, Save(c), []);
      if saved && analysis.Found? {
        assert Completes(audits[|s1.cases.audits|], request, parameters);
      }
    }

    /**
     A whole Analyze call, with anything happening between its steps, is a run of the whole system;
     when it reports success, a completion by its actor has been logged meanwhile, with the
     parameters that its request names, or else those its case had when the call began.
     */
    method Analyze(ghost c: nat, request: Request, faults: (Option<string>, Option<string>)) returns (r: Result<Case>)
      requires Valid() && c !in calls && request.Analyze?
      modifies this, cases, traces, events
      ensures Ran(c, request, Finished)
      ensures r.Ok? ==> exists p: Parameters, read: Parameters ::
                && UsesParameters(p, request, read) && Logged(|old(audits)|, e => Completes(e, request, p))
                && (request.caseId in old(cases.rows) ==> read == old(cases.rows)[request.caseId].parameters)
    {
      ghost var s := System();
      var loaded := Prepare(c, request);
      if loaded.Err? {
        return Err(loaded.error);
      }
      ghost var s1 := System();
      SystemEvolves(s, s1);
      if request.caseId in s.cases.rows {
        SystemStays(s, s1, request.caseId);
      }
      ghost var p;
      r, p := AnalyzeLoaded(c, request, loaded.value, faults);
      WholeSystem.ReachesFurther(s, s1, System());
    }

    method AnalyzeLoaded(ghost c: nat, request: Request, loaded: Case, faults: (Option<string>, Option<string>))
      returns (r: Result<Case>, ghost p: Parameters)
      requires Valid() && c in calls && calls[c] == Call(request, AtStart(loaded)) && request.Analyze?
      modifies this, cases, traces, events
      ensures Ran(c, request, Finished)
      ensures UsesParameters(p, request, loaded.parameters) && (r.Ok? ==> Logged(|old(audits)|, e => Completes(e, request, p)))
    {
      ghost var s := System();
      var parameters := WithDefaults(request, loaded.parameters);
      p := parameters;
      var started, startedAt := Launch(c, request, loaded);
      if !started {
        r := Err("case changed while analysis was starting");
        return;
      }
      var item := loaded.(status := Analyzing, version := loaded.version + 1);
      ghost var s1 := System();
      SystemEvolves(s, s1);
      r := AnalyzeStarted(c, request, item, startedAt, faults, parameters);
      WholeSystem.ReachesFurther(s, s1, System());
    }

    method AnalyzeStarted(ghost c: nat, request: Request, item: Case, ghost startedAt: int, faults: (Option<string>, Option<string>), parameters: Parameters)
      returns (r: Result<Case>)
      requires Valid() && c in calls && calls[c] == Call(request, AtBaseline(item, startedAt)) && request.Analyze?
      requires parameters == Effective(request, item.parameters)
      modifies this, cases, traces, events
      ensures Ran(c, request, Finished)
      ensures r.Ok? ==> Logged(|old(audits)|, e => Completes(e, request, parameters))
    {
      ghost var s := System();
      var analysis := CompareEvents(c, request, item, startedAt, faults, parameters);
      ghost var s1 := System();
      SystemEvolves(s, s1);
      var saved := Conclude(c, request, item, startedAt, analysis, parameters);
      WholeSystem.ReachesFurther(s, s1, System());
      if analysis.Failed? {
        return Err("case analysis could not be completed");
      }
      if !saved {
        return Err("case changed while analysis was saved");
      }
      ghost var s2 := System();
      r := Answer(c, request);
      WholeSystem.ReachesFurther(s, s2, System());
    }

    /** The read that answers a successful Analyze. */
    method Answer(ghost c: nat, request: Request) returns (r: Result<Case>)
      requires Valid() && c in calls && calls[c] == Call(request, Finished)
      modifies this, cases, traces, events
      ensures Ran(c, request, Finished) && old(audits) <= audits
    {
      ghost var s := System();
      Others(c);
      SystemEvolves(s, System());
      r := cases.Get(request.caseId);
    }

    /** The fallbacks from the request to the saved parameters to the defaults. */
    method WithDefaults(request: Request, saved: Parameters) returns (p: Parameters)
      requires request.Analyze?
      ensures p == Effective(request, saved) && UsesParameters(p, request, saved)
    {
      var tolerance, loss := request.tolerance, request.lossIncrease;
      if tolerance == 0.0 {
        tolerance := saved.tolerance;
      }
      if tolerance == 0.0 {
        tolerance := 25.0;
      }
      if loss == 0.0 {
        loss := saved.lossIncrease;
      }
      if loss == 0.0 {
        loss := 0.5;
      }
      p := Parameters(tolerance, loss);
    }

    /**
     A whole Confirm or Close call; on success its decision has been logged meanwhile, and the case
     it returns has left the version that the request named and carries what the request decided.
     */
    method Review(ghost c: nat, request: Request) returns (r: Result<Case>)
      requires Valid() && c !in calls && !request.Analyze?
      modifies this, cases, traces, events
      ensures Ran(c, request, Finished)
      ensures r.Ok? ==> Logged(|old(audits)|, e => Decides(e, request))
      ensures r.Ok? ==> r.value.version > request.version && Carries(r.value, request)
      ensures r.Ok? && request.Confirm? ==> request.role == Reviewer || request.role == Admin
      ensures r.Ok? && request.Close? ==> r.value.closedAt == Some(old(clock))
    {
      ghost var s := System();
      WholeSystem.ReachesItself(s);
      Enter(c, request);
      WholeSystem.ReachesByCases(s, s, Invoke(c, request), []);
      ghost var s1 := System();
      var at;
      r, at := LoadForReview(c, request);
      WholeSystem.ReachesFurther(s, s1, System());
      if r.Err? {
        return;
      }
      ghost var s2 := System();
      SystemEvolves(s, s2);
      r := CommitReview(c, request, r.value, at);
      WholeSystem.ReachesFurther(s, s2, System());
    }

    method LoadForReview(ghost c: nat, request: Request) returns (r: Result<Case>, at: int)
      requires Valid() && c in calls && calls[c] == Call(request, Begun) && !request.Analyze?
      modifies this`calls
      ensures Ran(c, request, if r.Ok? then AtCommit(r.value, at) else Finished)
      ensures at == clock && (r.Ok? && request.Confirm? ==> request.role == Reviewer || request.role == Admin)
    {
      ghost var s := System();
      WholeSystem.ReachesItself(s);
      at := clock;
      r := Load(c, request.caseId);
      WholeSystem.ReachesByCases(s, s, Read(c), []);
      if request.Confirm? && request.role != Reviewer && request.role != Admin {
        return Err("reviewer role is required to confirm a case"), at;
      }
      if request.Confirm? && r.Ok? && r.value.status == Closed {
        return Err("closed cases cannot be modified"), at;
      }
    }

    method CommitReview(ghost c: nat, request: Request, item: Case, at: int) returns (r: Result<Case>)
      requires Valid() && c in calls && calls[c] == Call(request, AtCommit(item, at)) && !request.Analyze?
      modifies this, cases, traces, events
      ensures Ran(c, request, Finished)
      ensures r.Ok? ==> Logged(|old(audits)|, e => Decides(e, request))
      ensures r.Ok? ==> r.value.version > request.version && Carries(r.value, request)
      ensures r.Ok? && request.Close? ==> r.value.closedAt == Some(at)
    {
      ghost var s := System();
      var changed := CommitDecision(c, request, item, at);
      if !changed {
        return Err("case state or version changed");
      }
      ghost var s1 := System();
      r := DecidedCase(c, request);
      WholeSystem.ReachesFurther(s, s1, System());
    }

    /** The read that answers a successful Confirm or Close. */
    method DecidedCase(ghost c: nat, request: Request) returns (r: Result<Case>)
      requires Valid() && c in calls && calls[c] == Call(request, Finished)
      requires request.caseId in cases.rows && Carries(cases.rows[request.caseId], request)
      modifies this, cases, traces, events
      ensures Ran(c, request, Finished) && old(audits) <= audits
      ensures r.Ok? && Carries(r.value, request) && old(cases.rows)[request.caseId].version <= r.value.version
      ensures request.Close? ==> r.value.closedAt == old(cases.rows)[request.caseId].closedAt
    {
      ghost var s := System();
      Others(c);
      SystemEvolves(s, System());
      SystemStays(s, System(), request.caseId);
      r := cases.Get(request.caseId);
    }

    /** What a Confirm or a Close writes and audits. */
    method DecisionOf(request: Request, at: int) returns (from: Status, to: Status, updates: Updates, after: Snapshot)
      requires !request.Analyze?
      ensures from == CommitFrom(request) && to == CommitTo(request) && updates == CommitUpdates(request, at)
      ensures forall item: Case :: CommitEntry(request, item).after == after
    {
      match request {
        case Confirm(_, version, conclusion, estimate, uncertainty, actor, _) =>
          updates := NO_UPDATES.(conclusion := Some(conclusion), estimate := Some(estimate),
                                 uncertainty := Some(uncertainty), reviewerId := Some(actor));
          from, to, after := PendingReview, Confirmed, Decision(conclusion, estimate, uncertainty, version);
        case Close(_, _, _) =>
          updates := NO_UPDATES.(closedAt := Some(at));
          from, to, after := Confirmed, Closed, StatusOnly(Closed);
      }
    }

    method CommitDecision(ghost c: nat, request: Request, item: Case, at: int) returns (changed: bool)
      requires Valid() && c in calls && calls[c] == Call(request, AtCommit(item, at)) && !request.Analyze?
      modifies this, cases, traces, events
      ensures Ran(c, request, Finished)
      ensures changed ==> Logged(|old(audits)|, e => Decides(e, request))
      ensures changed ==> request.caseId in cases.rows && cases.rows[request.caseId].version == request.version + 1
      ensures changed ==> Carries(cases.rows[request.caseId], request)
      ensures changed && request.Close? ==> cases.rows[request.caseId].closedAt == Some(at)
    {
      ghost var s := System();
      Others(c);
      ghost var s1 := System();
      SystemEvolves(s, s1);
      var from, to, updates, after := DecisionOf(request, at);
      changed := CommitTransaction(c, request, item, at, from, to, updates, after);
      WholeSystem.ReachesByCases(s, s1, Commit(c), []);
      CommittedIs(s1.cases, c, request, item, at);
      if changed {
        assert Decides(audits[|s1.cases.audits|], request);
      }
    }
  }

  /** The entry of a completed analysis for this request, with the parameters it used. */
  ghost predicate Completes(e: Entry, request: Request, p: Parameters) {
    && (e.actor, e.action, e.caseId, e.before) == (request.actor, AnalysisCompleted, request.caseId, Nothing)
    && e.after.Outcome? && e.after.parameters == p
  }

  /** The entry of a Confirm or Close for this request, with some record as its before-value. */
  ghost predicate Decides(e: Entry, request: Request) {
    && (e.actor, e.caseId) == (request.actor, request.caseId) && e.before.Record?
    && match request
       case Confirm(_, version, conclusion, estimate, uncertainty, _, _) =>
         e.action == CaseConfirmed && e.after == Decision(conclusion, estimate, uncertainty, version)
       case Close(_, _, _) => e.action == CaseClosed && e.after == StatusOnly(Closed)
       case Analyze(_, _, _, _) => false
  }

  /** What a confirmed or closed case shows of the request that confirmed or closed it. */
  ghost predicate Carries(row: Case, request: Request) {
    match request
    case Confirm(_, _, conclusion, estimate, uncertainty, actor, _) =>
      && (row.status == Confirmed || row.status == Closed)
      && row.conclusion == conclusion && row.estimate == Some(estimate) && row.uncertainty == Some(uncertainty)
      && row.reviewerId == Some(actor)
    case Close(_, _, _) => row.status == Closed && row.closedAt.Some?
    case Analyze(_, _, _, _) => false
  }

  /** The event that a comparison sees of a marker. */
  ghost predicate Converts(e: ComparableEvent, markers: map<nat, Marker>, id: nat) {
    && id in markers && e.id == id && e.distance == markers[id].distance
    && e.insertionLoss == markers[id].insertionLoss && e.confidence == markers[id].confidence
  }

  lemma CommittedIs(s: State, c: nat, request: Request, item: Case, at: int)
    requires c in s.calls && s.calls[c] == Call(request, AtCommit(item, at)) && !request.Analyze?
    ensures EffectOf(s, Commit(c)).Write? ==>
              var t := Next(s, Commit(c));
              && request.caseId in t.rows && t.rows[request.caseId].version == request.version + 1
              && Carries(t.rows[request.caseId], request)
              && (request.Close? ==> t.rows[request.caseId].closedAt == Some(at))
              && |t.audits| == |s.audits| + 1 && Decides(t.audits[|s.audits|], request)
  {
    if request.Confirm? {
      ConfirmWritesRow(s, c, item, at);
    } else {
      CloseWritesRow(s, c, item, at);
    }
  }

  lemma SystemStays(s: WholeSystem.State, t: WholeSystem.State, id: nat)
    requires WholeSystem.Reaches(s, t) && id in s.cases.rows
    ensures id in t.cases.rows && Stays(s.cases.rows[id], t.cases.rows[id])
  {
    WholeSystem.ReachesProjects(s, t);
    ReachedStays(s.cases, t.cases, id);
  }

  lemma SystemEvolves(s: WholeSystem.State, t: WholeSystem.State)
    requires WholeSystem.Reaches(s, t)
    ensures Evolves(s.cases, t.cases)
  {
    WholeSystem.ReachesProjects(s, t);
    ReachesEvolves(s.cases, t.cases);
  }

  lemma StillOnRoute(s: WholeSystem.State, t: WholeSystem.State, traceId: nat, routeId: nat)
    requires WholeSystem.Reaches(s, t) && OnRoute(s.evidence.traces, traceId, routeId)
    ensures OnRoute(t.evidence.traces, traceId, routeId)
  {
    WholeSystem.ReachesProjects(s, t);
    var steps: seq<Evidence.Step> :| Evidence.Exec(s.evidence, steps) == t.evidence;
    EvidenceLaws.SourcesSurvive(s.evidence, steps);
  }
}
