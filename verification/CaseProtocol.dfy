/**
 service/case_service.go as interleaved calls.  Every request is a call with its own program
 counter and local copies; one step is one read or one transaction of one call, a clock tick,
 or the loss of a call.  A step carries whatever the program does not decide itself.
 */
module CaseProtocol {
  import opened Results
  import opened CaseStatus
  import opened Compare
  import opened CaseRepository
  import opened Collections

  // ----- audit -----

  datatype Action =
    | Created
    | AnalysisStarted
    | AnalysisRecovered
    | AnalysisFailed
    | AnalysisCompleted
    | CaseConfirmed
    | CaseClosed

  /** What an audit entry stores as before- or after-value. */
  datatype Snapshot =
    | Nothing
    | StatusOnly(status: Status)
    | Record(item: Case)
    | ErrorText(text: string)
    | Outcome(count: nat, parameters: Parameters)
    | Decision(conclusion: string, estimate: real, uncertainty: real, version: nat)

  datatype Entry = Entry(actor: nat, action: Action, caseId: nat, before: Snapshot, after: Snapshot)

  // ----- calls -----

  datatype Request =
    | Analyze(caseId: nat, tolerance: real, lossIncrease: real, actor: nat)
    | Confirm(caseId: nat, version: nat, conclusion: string, estimate: real, uncertainty: real, actor: nat, role: Role)
    | Close(caseId: nat, version: nat, actor: nat)

  datatype Analysis = Failed(error: string) | Found(differences: seq<Difference>)

  /** Where a call stands and what it remembers. */
  datatype Phase =
    | Begun
    | AtRecovery(item: Case)
    | AtReload
    | AtStart(item: Case)
    | AtBaseline(item: Case, startedAt: int)
    | AtCurrent(item: Case, startedAt: int, baseline: seq<ComparableEvent>)
    | AtSave(item: Case, startedAt: int, analysis: Analysis)
    | AtCommit(item: Case, at: int)
    | Finished

  datatype Call = Call(request: Request, phase: Phase)

  /**
   owner is an auxiliary variable that no step reads: the call that opened the current,
   or latest, analysis epoch of a case.
   */
  datatype State = State(
    clock: int, rows: map<nat, Case>, audits: seq<Entry>, calls: map<nat, Call>, owner: map<nat, nat>)

  datatype Step =
    | Tick(elapsed: nat)
    | Create(id: nat, routeId: nat, baselineTraceId: nat, currentTraceId: nat, tolerance: real, lossIncrease: real, actor: nat, belong: bool)
    | Invoke(call: nat, request: Request)
    | Read(call: nat)
    | Recover(call: nat)
    | Start(call: nat)
    | LoadBaseline(call: nat, events: seq<ComparableEvent>)
    | LoadCurrent(call: nat, events: seq<ComparableEvent>, sorted: seq<Difference>)
    | LoadFails(call: nat, error: string)
    | Save(call: nat)
    | Commit(call: nat)
    | Abort(call: nat)

  // ----- the decisions of the service -----

  const DEFAULT_TOLERANCE := 25.0
  const DEFAULT_LOSS := 0.5

  /** The request's parameters, else the saved ones, else the defaults. */
  function Effective(request: Request, saved: Parameters): Parameters
    requires request.Analyze?
  {
    Parameters(FirstNonZero(0.0, request.tolerance, saved.tolerance, DEFAULT_TOLERANCE),
               FirstNonZero(0.0, request.lossIncrease, saved.lossIncrease, DEFAULT_LOSS))
  }

  function NewCase(step: Step, clock: int): Case
    requires step.Create?
  {
    Case(step.routeId, step.baselineTraceId, step.currentTraceId, Draft, None, None, "", None, None, "",
         Parameters(FirstNonZero(0.0, step.tolerance, 0.0, DEFAULT_TOLERANCE), FirstNonZero(0.0, step.lossIncrease, 0.0, DEFAULT_LOSS)),
         [], 1, step.actor, clock)
  }

  /** What a read of the row makes of a call; the status checks follow the read at once. */
  function AfterRead(call: Call, rows: map<nat, Case>, clock: int): Phase {
    if call.request.caseId !in rows then Finished
    else
      var item := rows[call.request.caseId];
      match call.request
      case Analyze(_, _, _, _) =>
        if call.phase.Begun? && item.status == Analyzing then AtRecovery(item)
        else if CanTransition(item.status, Analyzing) then AtStart(item)
        else Finished
      case Confirm(_, _, _, _, _, _, role) =>
        if role == Analyst || item.status == Closed then Finished else AtCommit(item, clock)
      case Close(_, _, _) => AtCommit(item, clock)
  }

  /** The local copy after a successful start: CaseStatus and Version are adjusted by hand. */
  function Started(item: Case): Case { item.(status := Analyzing, version := item.version + 1) }

  /** compareEvents once both lists are loaded; sorted is what sort.Slice made of the differences. */
  function AnalysisOf(call: Call, item: Case, baseline: seq<ComparableEvent>, current: seq<ComparableEvent>, sorted: seq<Difference>): Analysis
    requires call.request.Analyze?
  {
    var p := Effective(call.request, item.parameters);
    if |baseline| == 0 || |current| == 0 then Failed("both traces require detected events")
    else if ArgumentError(p.tolerance, p.lossIncrease).Some? then Failed(ArgumentError(p.tolerance, p.lossIncrease).value)
    else Found(sorted)
  }

  function SaveStatus(analysis: Analysis): Status { if analysis.Failed? then Draft else PendingReview }

  /** The updates of the closing transaction; the estimate is left out when nothing was found. */
  function SaveUpdates(analysis: Analysis, parameters: Parameters): Updates {
    match analysis
    case Failed(error) => NO_UPDATES.(analysisError := Some(error))
    case Found(ds) =>
      var base := NO_UPDATES.(differences := Some(ds), parameters := Some(parameters), analysisError := Some(""));
      match Primary(ds)
      case None => base
      case Some(e) => base.(estimate := Some(e.distance), uncertainty := Some(e.uncertainty))
  }

  function SaveEntry(call: Call, item: Case, analysis: Analysis): Entry
    requires call.request.Analyze?
  {
    match analysis
    case Failed(error) => Entry(call.request.actor, AnalysisFailed, call.request.caseId, Nothing, ErrorText(error))
    case Found(ds) =>
      Entry(call.request.actor, AnalysisCompleted, call.request.caseId, Nothing, Outcome(|ds|, Effective(call.request, item.parameters)))
  }

  function CommitFrom(request: Request): Status
    requires !request.Analyze?
  {
    if request.Confirm? then PendingReview else Confirmed
  }

  function CommitTo(request: Request): Status
    requires !request.Analyze?
  {
    if request.Confirm? then Confirmed else Closed
  }

  function CommitUpdates(request: Request, at: int): Updates
    requires !request.Analyze?
  {
    match request
    case Confirm(_, _, conclusion, estimate, uncertainty, actor, _) =>
      NO_UPDATES.(conclusion := Some(conclusion), estimate := Some(estimate), uncertainty := Some(uncertainty), reviewerId := Some(actor))
    case Close(_, _, _) => NO_UPDATES.(closedAt := Some(at))
  }

  function CommitEntry(request: Request, item: Case): Entry
    requires !request.Analyze?
  {
    match request
    case Confirm(id, version, conclusion, estimate, uncertainty, actor, _) =>
      Entry(actor, CaseConfirmed, id, Record(item), Decision(conclusion, estimate, uncertainty, version))
    case Close(id, _, actor) => Entry(actor, CaseClosed, id, Record(item), StatusOnly(Closed))
  }

  // ----- effects of a step on the stored rows and the audit log -----

  datatype Effect =
    | Keep
    | Insert(id: nat, row: Case, entry: Entry)
    | Write(id: nat, row: Case, entry: Entry)

  /** A call that is in the phases where the given step makes sense. */
  predicate InPhase(s: State, call: nat, step: Step) {
    && call in s.calls
    && var c := s.calls[call];
       match step
       case Read(_) => c.phase.Begun? || c.phase.AtReload?
       case Recover(_) => c.request.Analyze? && c.phase.AtRecovery?
       case Start(_) => c.request.Analyze? && c.phase.AtStart?
       case LoadBaseline(_, _) => c.request.Analyze? && c.phase.AtBaseline?
       case LoadCurrent(_, _, _) => c.request.Analyze? && c.phase.AtCurrent?
       case LoadFails(_, _) => c.request.Analyze? && (c.phase.AtBaseline? || c.phase.AtCurrent?)
       case Save(_) => c.request.Analyze? && c.phase.AtSave?
       case Commit(_) => !c.request.Analyze? && c.phase.AtCommit?
       case _ => true
  }

  function CreateEffect(s: State, step: Step): Effect
    requires step.Create?
  {
    if step.id in s.rows || step.baselineTraceId == step.currentTraceId || !step.belong then Keep
    else
      var row := NewCase(step, s.clock);
      Insert(step.id, row, Entry(step.actor, Created, step.id, Nothing, Record(row)))
  }

  function RecoverEffect(s: State, call: Call): Effect
    requires call.request.Analyze?
  {
    var id := call.request.caseId;
    if !Stale(s.rows, id, s.clock - LEASE) then Keep
    else Write(id, Updated(s.rows[id], Draft, RecoveryUpdates(), s.clock),
               Entry(call.request.actor, AnalysisRecovered, id, StatusOnly(Analyzing), StatusOnly(Draft)))
  }

  function StartEffect(s: State, call: Call): Effect
    requires call.request.Analyze? && call.phase.AtStart?
  {
    var id, item := call.request.caseId, call.phase.item;
    if !Transitionable(s.rows, id, item.version, Draft) then Keep
    else Write(id, Updated(s.rows[id], Analyzing, NO_UPDATES.(analysisError := Some("")), s.clock),
               Entry(call.request.actor, AnalysisStarted, id, StatusOnly(item.status), StatusOnly(Analyzing)))
  }

  function SaveEffect(s: State, call: Call): Effect
    requires call.request.Analyze? && call.phase.AtSave?
  {
    var id, item, analysis := call.request.caseId, call.phase.item, call.phase.analysis;
    if !Savable(s.rows, id) then Keep
    else Write(id, Updated(s.rows[id], SaveStatus(analysis), SaveUpdates(analysis, Effective(call.request, item.parameters)), s.clock),
               SaveEntry(call, item, analysis))
  }

  function CommitEffect(s: State, call: Call): Effect
    requires !call.request.Analyze? && call.phase.AtCommit?
  {
    var r := call.request;
    if !Transitionable(s.rows, r.caseId, r.version, CommitFrom(r)) then Keep
    else Write(r.caseId, Updated(s.rows[r.caseId], CommitTo(r), CommitUpdates(r, call.phase.at), s.clock), CommitEntry(r, call.phase.item))
  }

  function EffectOf(s: State, step: Step): Effect {
    match step
    case Create(_, _, _, _, _, _, _, _) => CreateEffect(s, step)
    case Recover(c) => if InPhase(s, c, step) then RecoverEffect(s, s.calls[c]) else Keep
    case Start(c) => if InPhase(s, c, step) then StartEffect(s, s.calls[c]) else Keep
    case Save(c) => if InPhase(s, c, step) then SaveEffect(s, s.calls[c]) else Keep
    case Commit(c) => if InPhase(s, c, step) then CommitEffect(s, s.calls[c]) else Keep
    case _ => Keep
  }

  // ----- what a step does to its call -----

  /** The next phase of the step's call; None when the step is not enabled or is not about a call. */
  ghost function NextPhase(s: State, step: Step): Option<Phase> {
    match step
    case Read(c) => if InPhase(s, c, step) then Some(AfterRead(s.calls[c], s.rows, s.clock)) else None
    case Recover(c) =>
      if !InPhase(s, c, step) then None
      else Some(if EffectOf(s, step).Write? then AtReload else Finished)
    case Start(c) =>
      if !InPhase(s, c, step) then None
      else Some(if EffectOf(s, step).Write? then AtBaseline(Started(s.calls[c].phase.item), s.clock) else Finished)
    case LoadBaseline(c, events) =>
      if !InPhase(s, c, step) then None
      else var p := s.calls[c].phase; Some(AtCurrent(p.item, p.startedAt, events))
    case LoadCurrent(c, events, sorted) =>
      if !InPhase(s, c, step) then None
      else
        var call := s.calls[c];
        var analysis := AnalysisOf(call, call.phase.item, call.phase.baseline, events, sorted);
        var p := Effective(call.request, call.phase.item.parameters);
        if analysis.Found? ==> SortedPermutation(sorted, Unsorted(call.phase.baseline, events, p.tolerance, p.lossIncrease))
        then Some(AtSave(call.phase.item, call.phase.startedAt, analysis)) else None
    case LoadFails(c, error) =>
      if !InPhase(s, c, step) then None
      else var p := s.calls[c].phase; Some(AtSave(p.item, p.startedAt, Failed(error)))
    case Save(c) => if InPhase(s, c, step) then Some(Finished) else None
    case Commit(c) => if InPhase(s, c, step) then Some(Finished) else None
    case Abort(c) => if c in s.calls then Some(Finished) else None
    case _ => None
  }

  ghost function CallsAfter(s: State, step: Step): map<nat, Call> {
    match step
    case Tick(_) => s.calls
    case Create(_, _, _, _, _, _, _, _) => s.calls
    case Invoke(c, request) => if c in s.calls then s.calls else s.calls[c := Call(request, Begun)]
    case _ =>
      match NextPhase(s, step)
      case None => s.calls
      case Some(p) => s.calls[step.call := s.calls[step.call].(phase := p)]
  }

  function RowsAfter(rows: map<nat, Case>, e: Effect): map<nat, Case> {
    match e
    case Keep => rows
    case Insert(id, row, _) => rows[id := row]
    case Write(id, row, _) => rows[id := row]
  }

  function AuditsAfter(audits: seq<Entry>, e: Effect): seq<Entry> {
    match e
    case Keep => audits
    case Insert(_, _, entry) => audits + [entry]
    case Write(_, _, entry) => audits + [entry]
  }

  ghost function OwnerAfter(s: State, step: Step): map<nat, nat> {
    if step.Start? && EffectOf(s, step).Write? then s.owner[EffectOf(s, step).id := step.call] else s.owner
  }

  /** One step; a step that is not enabled changes nothing. */
  ghost function Next(s: State, step: Step): State {
    State(if step.Tick? then s.clock + step.elapsed else s.clock,
          RowsAfter(s.rows, EffectOf(s, step)),
          AuditsAfter(s.audits, EffectOf(s, step)),
          CallsAfter(s, step),
          OwnerAfter(s, step))
  }

  function Initial(clock: int): State { State(clock, map[], [], map[], map[]) }

  /** The state after a run, from a given state. */
  ghost function Exec(s: State, steps: seq<Step>): State {
    if steps == [] then s else Next(Exec(s, steps[..|steps| - 1]), steps[|steps| - 1])
  }

  lemma {:induction false} ExecConcat(s: State, a: seq<Step>, b: seq<Step>)
    ensures Exec(s, a + b) == Exec(Exec(s, a), b)
  {
    if b == [] {
      assert a + b == a;
    } else {
      assert (a + b)[..|a + b| - 1] == a + b[..|b| - 1];
      ExecConcat(s, a, b[..|b| - 1]);
    }
  }

  ghost predicate Reaches(s: State, t: State) { exists steps: seq<Step> :: Exec(s, steps) == t }

  lemma ReachesItself(s: State)
    ensures Reaches(s, s)
  {
    assert Exec(s, []) == s;
  }

  lemma ReachesNext(s: State, t: State, step: Step)
    requires Reaches(s, t)
    ensures Reaches(s, Next(t, step))
  {
    var steps: seq<Step> :| Exec(s, steps) == t;
    assert (steps + [step])[..|steps|] == steps;
    assert Exec(s, steps + [step]) == Next(t, step);
  }

  lemma ReachesFurther(s: State, t: State, u: State)
    requires Reaches(s, t) && Reaches(t, u)
    ensures Reaches(s, u)
  {
    var a: seq<Step> :| Exec(s, a) == t;
    var b: seq<Step> :| Exec(t, b) == u;
    ExecConcat(s, a, b);
    assert Exec(s, a + b) == u;
  }
}
