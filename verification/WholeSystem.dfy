/**
 Both protocols over one store: analyses read the markers that detections and reviews write, and
 cases refer to imported traces.  What crosses the two is proved here.
 */
module WholeSystem {
  import opened Results
  import opened Reals
  import opened CaseStatus
  import opened Compare
  import opened CaseRepository
  import opened TraceRepository
  import opened EventRepository
  import Evidence = EvidenceProtocol
  import Cases = CaseProtocol
  import CompareLaws
  import CaseLaws
  import EvidenceLaws

  datatype State = State(evidence: Evidence.State, cases: Cases.State)

  /** A case step that loads markers says in which order the query listed them. */
  datatype Step =
    | Tick(elapsed: nat)
    | OnEvidence(evidenceStep: Evidence.Step)
    | OnCases(caseStep: Cases.Step, listing: seq<nat>)

  ghost predicate Listed(markers: map<nat, Marker>, traceId: nat, listing: seq<nat>, events: seq<ComparableEvent>) {
    IsListing(markers, traceId, listing) && events == Comparable(markers, listing)
  }

  /**
   What the case service reads from the traces and markers.  Both ownership queries of Create
   are answered when it inserts: a trace never leaves its route, so earlier answers still hold.
   */
  ghost predicate ReadsStore(s: State, step: Cases.Step, listing: seq<nat>) {
    match step
    case Create(_, routeId, baseline, current, _, _, _, belong) =>
      belong == (OnRoute(s.evidence.traces, baseline, routeId) && OnRoute(s.evidence.traces, current, routeId))
    case LoadBaseline(c, events) =>
      Cases.InPhase(s.cases, c, step) && Listed(s.evidence.markers, s.cases.calls[c].phase.item.baselineTraceId, listing, events)
    case LoadCurrent(c, events, _) =>
      Cases.InPhase(s.cases, c, step) && Listed(s.evidence.markers, s.cases.calls[c].phase.item.currentTraceId, listing, events)
    case _ => true
  }

  ghost function Next(s: State, step: Step): State {
    match step
    case Tick(elapsed) =>
      State(Evidence.Next(s.evidence, Evidence.Tick(elapsed)), Cases.Next(s.cases, Cases.Tick(elapsed)))
    case OnEvidence(e) => if e.Tick? then s else s.(evidence := Evidence.Next(s.evidence, e))
    case OnCases(c, listing) => if c.Tick? || !ReadsStore(s, c, listing) then s else s.(cases := Cases.Next(s.cases, c))
  }

  function Initial(clock: int, maxPoints: nat): State {
    State(Evidence.Initial(clock, maxPoints), Cases.Initial(clock))
  }

  ghost function Exec(s: State, steps: seq<Step>): State {
    if steps == [] then s else Next(Exec(s, steps[..|steps| - 1]), steps[|steps| - 1])
  }

  lemma {:induction false} ExecConcat(s: State, a: seq<Step>, b: seq<Step>)
    ensures Exec(s, a + b) == Exec(Exec(s, a), b)
  {
    if b == [] {
      assert a + b == a;
    } else {
      assert (a + b)[..|a + b| - 1] == a + b[..|b| - 1];
      ExecConcat(s, a, b[..|b| - 1]);
    }
  }

  ghost predicate Reaches(s: State, t: State) { exists steps: seq<Step> :: Exec(s, steps) == t }

  lemma ReachesItself(s: State)
    ensures Reaches(s, s)
  {
    assert Exec(s, []) == s;
  }

  lemma ReachesNext(s: State, t: State, step: Step)
    requires Reaches(s, t)
    ensures Reaches(s, Next(t, step))
  {
    var steps: seq<Step> :| Exec(s, steps) == t;
    assert (steps + [step])[..|steps|] == steps;
    assert Exec(s, steps + [step]) == Next(t, step);
  }

  lemma ReachesFurther(s: State, t: State, u: State)
    requires Reaches(s, t) && Reaches(t, u)
    ensures Reaches(s, u)
  {
    var a: seq<Step> :| Exec(s, a) == t;
    var b: seq<Step> :| Exec(t, b) == u;
    ExecConcat(s, a, b);
    assert Exec(s, a + b) == u;
  }

  /** A step of the case protocol that reads the store as it is. */
  lemma ReachesByCases(s: State, t: State, step: Cases.Step, listing: seq<nat>)
    requires Reaches(s, t) && !step.Tick? && ReadsStore(t, step, listing)
    ensures Reaches(s, State(t.evidence, Cases.Next(t.cases, step)))
  {
    ReachesNext(s, t, OnCases(step, listing));
  }

  // ----- each part runs by its own protocol -----

  lemma StepProjects(start: State, s: State, step: Step)
    requires Evidence.Reaches(start.evidence, s.evidence) && Cases.Reaches(start.cases, s.cases)
    ensures Evidence.Reaches(start.evidence, Next(s, step).evidence) && Cases.Reaches(start.cases, Next(s, step).cases)
  {
    match step
    case Tick(elapsed) =>
      Evidence.ReachesNext(start.evidence, s.evidence, Evidence.Tick(elapsed));
      Cases.ReachesNext(start.cases, s.cases, Cases.Tick(elapsed));
    case OnEvidence(e) => Evidence.ReachesNext(start.evidence, s.evidence, e);
    case OnCases(c, _) => Cases.ReachesNext(start.cases, s.cases, c);
  }

  lemma {:induction false} ExecProjects(s: State, steps: seq<Step>)
    ensures Evidence.Reaches(s.evidence, Exec(s, steps).evidence) && Cases.Reaches(s.cases, Exec(s, steps).cases)
  {
    if steps == [] {
      Evidence.ReachesItself(s.evidence);
      Cases.ReachesItself(s.cases);
    } else {
      ExecProjects(s, steps[..|steps| - 1]);
      StepProjects(s, Exec(s, steps[..|steps| - 1]), steps[|steps| - 1]);
    }
  }

  /** A run of the whole system is a run of each protocol, so all their laws hold of it. */
  lemma RunsProject(clock: int, maxPoints: nat, steps: seq<Step>)
    ensures var s := Exec(Initial(clock, maxPoints), steps);
            && Evidence.Reaches(Evidence.Initial(clock, maxPoints), s.evidence)
            && Cases.Reaches(Cases.Initial(clock), s.cases)
  {
    ExecProjects(Initial(clock, maxPoints), steps);
  }

  lemma ReachesProjects(s: State, t: State)
    requires Reaches(s, t)
    ensures Evidence.Reaches(s.evidence, t.evidence) && Cases.Reaches(s.cases, t.cases)
  {
    var steps: seq<Step> :| Exec(s, steps) == t;
    ExecProjects(s, steps);
  }

  lemma MarkersAreSound(clock: int, maxPoints: nat, steps: seq<Step>)
    ensures EvidenceLaws.AllSound(Exec(Initial(clock, maxPoints), steps).evidence)
  {
    RunsProject(clock, maxPoints, steps);
    var e: seq<Evidence.Step> :| Evidence.Exec(Evidence.Initial(clock, maxPoints), e) == Exec(Initial(clock, maxPoints), steps).evidence;
    EvidenceLaws.MarkersSoundInEveryRun(clock, maxPoints, e);
  }

  lemma ResultsFit(clock: int, maxPoints: nat, steps: seq<Step>, id: nat)
    ensures var s := Exec(Initial(clock, maxPoints), steps).cases; id in s.rows ==> CaseLaws.ResultFits(s.rows[id])
  {
    RunsProject(clock, maxPoints, steps);
    var c: seq<Cases.Step> :| Cases.Exec(Cases.Initial(clock), c) == Exec(Initial(clock, maxPoints), steps).cases;
    CaseLaws.ResultsNeverStaleOrTorn(clock, c, id);
  }

  // ----- cases refer to traces of their route -----

  ghost predicate RefersToTraces(item: Case, traces: map<nat, Trace>) {
    && item.baselineTraceId != item.currentTraceId
    && OnRoute(traces, item.baselineTraceId, item.routeId)
    && OnRoute(traces, item.currentTraceId, item.routeId)
  }

  lemma ReferencesSurvive(item: Case, before: map<nat, Trace>, after: map<nat, Trace>)
    requires RefersToTraces(item, before) && EvidenceLaws.SourcesKept(before, after)
    ensures RefersToTraces(item, after)
  {
  }

  /** A case step stores a row that it creates from its arguments, or one with the references of the row before. */
  lemma CaseStepKeepsReferences(s: Cases.State, step: Cases.Step, id: nat)
    requires id in Cases.Next(s, step).rows
    ensures var row := Cases.Next(s, step).rows[id];
            if id in s.rows
            then (row.routeId, row.baselineTraceId, row.currentTraceId)
                 == (s.rows[id].routeId, s.rows[id].baselineTraceId, s.rows[id].currentTraceId)
            else step.Create? && step.belong && step.baselineTraceId != step.currentTraceId
                 && (row.routeId, row.baselineTraceId, row.currentTraceId) == (step.routeId, step.baselineTraceId, step.currentTraceId)
  {
    CaseLaws.EveryEffectIsLegal(s, step);
  }

  ghost predicate ReferencesSound(s: State, id: nat) {
    id in s.cases.rows ==> RefersToTraces(s.cases.rows[id], s.evidence.traces)
  }

  lemma StepKeepsReferences(s: State, step: Step, id: nat)
    requires ReferencesSound(s, id)
    ensures ReferencesSound(Next(s, step), id)
  {
    match step
    case Tick(_) =>
    case OnEvidence(e) =>
      EvidenceLaws.StepKeepsSources(s.evidence, e);
      if id in s.cases.rows {
        ReferencesSurvive(s.cases.rows[id], s.evidence.traces, Evidence.Next(s.evidence, e).traces);
      }
    case OnCases(c, listing) =>
      if id in Cases.Next(s.cases, c).rows {
        CaseStepKeepsReferences(s.cases, c, id);
      }
  }

  /** In every run the two traces of every case exist, differ, and belong to the case's route. */
  lemma {:induction false} CasesReferToTracesOfTheirRoute(clock: int, maxPoints: nat, steps: seq<Step>, id: nat)
    ensures ReferencesSound(Exec(Initial(clock, maxPoints), steps), id)
  {
    if steps != [] {
      CasesReferToTracesOfTheirRoute(clock, maxPoints, steps[..|steps| - 1], id);
      StepKeepsReferences(Exec(Initial(clock, maxPoints), steps[..|steps| - 1]), steps[|steps| - 1], id);
    }
  }

  // ----- the confidence chain -----

  ghost predicate ConfidentEvents(events: seq<ComparableEvent>) {
    forall i :: 0 <= i < |events| ==> 0.6 <= events[i].confidence <= 0.99
  }

  ghost predicate ConfidentDifferences(ds: seq<Difference>) {
    forall d :: d in ds ==> 0.54 <= d.confidence <= 0.99
  }

  lemma ListedAreConfident(s: Evidence.State, traceId: nat, listing: seq<nat>, events: seq<ComparableEvent>)
    requires EvidenceLaws.AllSound(s) && Listed(s.markers, traceId, listing, events)
    ensures ConfidentEvents(events)
  {
    forall i | 0 <= i < |events|
      ensures 0.6 <= events[i].confidence <= 0.99
    {
      assert listing[i] in listing;
      assert EvidenceLaws.MarkerSound(s.markers[listing[i]], listing[i], s.nextMarker, s.detections);
    }
  }

  lemma RoundedConfidence(c: real)
    requires 0.54 <= c <= 0.99
    ensures 0.54 <= Round3(c) <= 0.99
  {
    Round3Within(540, c, 990);
  }

  lemma JustifiedIsConfident(d: Difference, baseline: seq<ComparableEvent>, current: seq<ComparableEvent>, tolerance: real, lossIncrease: real)
    requires ConfidentEvents(baseline) && ConfidentEvents(current)
    requires CompareLaws.Justified(d, baseline, current, tolerance, lossIncrease)
    ensures 0.54 <= d.confidence <= 0.99
  {
    var matches := Matches(baseline, current, tolerance);
    if i :| 0 <= i < |baseline| && CompareLaws.BaselineEvidence(d, i, baseline, current, matches, tolerance, lossIncrease) {
      if matches[i] < 0 {
        RoundedConfidence(0.9 * baseline[i].confidence);
      } else {
        RoundedConfidence(baseline[i].confidence);
        RoundedConfidence(current[matches[i]].confidence);
      }
    } else {
      var c :| 0 <= c < |current| && c !in UsedBy(matches) && IsNew(d, current[c]);
      RoundedConfidence(current[c].confidence);
    }
  }

  lemma ComparedAreConfident(ds: seq<Difference>, baseline: seq<ComparableEvent>, current: seq<ComparableEvent>, tolerance: real, lossIncrease: real)
    requires ConfidentEvents(baseline) && ConfidentEvents(current)
    requires SortedPermutation(ds, Unsorted(baseline, current, tolerance, lossIncrease))
    ensures ConfidentDifferences(ds)
  {
    forall d | d in ds
      ensures 0.54 <= d.confidence <= 0.99
    {
      CompareLaws.ReportedIffJustified(ds, baseline, current, tolerance, lossIncrease, d);
      JustifiedIsConfident(d, baseline, current, tolerance, lossIncrease);
    }
  }

  /** What an analysis remembers came from sound markers. */
  ghost predicate ConfidentPhase(phase: Cases.Phase) {
    match phase
    case AtCurrent(_, _, baseline) => ConfidentEvents(baseline)
    case AtSave(_, _, Found(ds)) => ConfidentDifferences(ds)
    case _ => true
  }

  ghost predicate ConfidentCall(s: Cases.State, c: nat) { c in s.calls ==> ConfidentPhase(s.calls[c].phase) }

  ghost predicate ConfidentRow(s: Cases.State, id: nat) { id in s.rows ==> ConfidentDifferences(s.rows[id].differences) }

  lemma LoadCurrentIsConfident(s: State, step: Cases.Step, listing: seq<nat>)
    requires step.LoadCurrent? && Cases.InPhase(s.cases, step.call, step) && ConfidentCall(s.cases, step.call)
    requires EvidenceLaws.AllSound(s.evidence) && ReadsStore(s, step, listing) && Cases.NextPhase(s.cases, step).Some?
    ensures ConfidentPhase(Cases.NextPhase(s.cases, step).value)
  {
    var call := s.cases.calls[step.call];
    var p := Cases.Effective(call.request, call.phase.item.parameters);
    ListedAreConfident(s.evidence, call.phase.item.currentTraceId, listing, step.events);
    if Cases.AnalysisOf(call, call.phase.item, call.phase.baseline, step.events, step.sorted).Found? {
      ComparedAreConfident(step.sorted, call.phase.baseline, step.events, p.tolerance, p.lossIncrease);
    }
  }

  lemma PhaseStaysConfident(s: State, step: Cases.Step, listing: seq<nat>)
    requires EvidenceLaws.AllSound(s.evidence) && ReadsStore(s, step, listing)
    requires Cases.NextPhase(s.cases, step).Some? && ConfidentCall(s.cases, step.call)
    ensures ConfidentPhase(Cases.NextPhase(s.cases, step).value)
  {
    if step.LoadBaseline? {
      ListedAreConfident(s.evidence, s.cases.calls[step.call].phase.item.baselineTraceId, listing, step.events);
    } else if step.LoadCurrent? {
      LoadCurrentIsConfident(s, step, listing);
    }
  }

  /** Only the closing transaction of an analysis writes differences. */
  lemma StepMovesDifferences(s: Cases.State, step: Cases.Step, id: nat)
    requires id in Cases.Next(s, step).rows
    ensures var ds := Cases.Next(s, step).rows[id].differences;
            || (id in s.rows && ds == s.rows[id].differences)
            || ds == []
            || (&& step.Save? && step.call in s.calls && s.calls[step.call].phase.AtSave?
                && s.calls[step.call].phase.analysis == Cases.Found(ds))
  {
  }

  ghost predicate Confident(s: Cases.State) {
    (forall c :: ConfidentCall(s, c)) && forall id :: ConfidentRow(s, id)
  }

  lemma CaseStepKeepsCall(s: State, step: Cases.Step, listing: seq<nat>, c: nat)
    requires EvidenceLaws.AllSound(s.evidence) && ReadsStore(s, step, listing) && Confident(s.cases)
    ensures ConfidentCall(Cases.Next(s.cases, step), c)
  {
    assert ConfidentCall(s.cases, c);
    if Cases.NextPhase(s.cases, step).Some? {
      assert ConfidentCall(s.cases, step.call);
      PhaseStaysConfident(s, step, listing);
    }
  }

  lemma CaseStepKeepsRow(s: Cases.State, step: Cases.Step, id: nat)
    requires Confident(s)
    ensures ConfidentRow(Cases.Next(s, step), id)
  {
    if id in Cases.Next(s, step).rows {
      StepMovesDifferences(s, step, id);
      assert ConfidentRow(s, id);
      if step.Save? {
        assert ConfidentCall(s, step.call);
      }
    }
  }

  lemma StepKeepsConfidence(s: State, step: Step)
    requires EvidenceLaws.AllSound(s.evidence) && Confident(s.cases)
    ensures Confident(Next(s, step).cases)
  {
    if step.OnCases? && ReadsStore(s, step.caseStep, step.listing) {
      forall c: nat
        ensures ConfidentCall(Cases.Next(s.cases, step.caseStep), c)
      {
        CaseStepKeepsCall(s, step.caseStep, step.listing, c);
      }
      forall id: nat
        ensures ConfidentRow(Cases.Next(s.cases, step.caseStep), id)
      {
        CaseStepKeepsRow(s.cases, step.caseStep, id);
      }
    } else {
      ClockKeepsConfidence(s.cases, Next(s, step).cases);
    }
  }

  lemma ClockKeepsConfidence(s: Cases.State, t: Cases.State)
    requires Confident(s) && t.calls == s.calls && t.rows == s.rows
    ensures Confident(t)
  {
    forall c: nat
      ensures ConfidentCall(t, c)
    {
      assert ConfidentCall(s, c);
    }
    forall id: nat
      ensures ConfidentRow(t, id)
    {
      assert ConfidentRow(s, id);
    }
  }

  lemma {:induction false} DifferencesAreConfident(clock: int, maxPoints: nat, steps: seq<Step>)
    ensures Confident(Exec(Initial(clock, maxPoints), steps).cases)
  {
    if steps != [] {
      DifferencesAreConfident(clock, maxPoints, steps[..|steps| - 1]);
      MarkersAreSound(clock, maxPoints, steps[..|steps| - 1]);
      StepKeepsConfidence(Exec(Initial(clock, maxPoints), steps[..|steps| - 1]), steps[|steps| - 1]);
    }
  }

  lemma {:induction false} WinnerIsMember(ds: seq<Difference>)
    requires ds != []
    ensures Winner(ds) in ds
  {
    if |ds| > 1 {
      WinnerIsMember(ds[..|ds| - 1]);
    }
  }

  lemma ConfidentEstimate(item: Case)
    requires ConfidentDifferences(item.differences) && CaseLaws.EstimateMatches(item) && item.estimate.Some?
    ensures item.uncertainty.Some? && 1.0 <= item.uncertainty.value <= 9.2
  {
    WinnerIsMember(item.differences);
    assert 0.54 <= Winner(item.differences).confidence <= 0.99;
  }

  /**
   In every run of detections, reviews and analyses, a case pending review has an estimate exactly
   when differences were found, and its uncertainty is then between 1 and 9.2 metres.
   */
  lemma PendingUncertaintyIsBounded(clock: int, maxPoints: nat, steps: seq<Step>, id: nat)
    ensures var s := Exec(Initial(clock, maxPoints), steps).cases;
            id in s.rows && s.rows[id].status == PendingReview ==>
              && (s.rows[id].estimate.Some? <==> s.rows[id].differences != [])
              && (s.rows[id].estimate.Some? ==> s.rows[id].uncertainty.Some? && 1.0 <= s.rows[id].uncertainty.value <= 9.2)
  {
    var s := Exec(Initial(clock, maxPoints), steps).cases;
    ResultsFit(clock, maxPoints, steps, id);
    DifferencesAreConfident(clock, maxPoints, steps);
    assert ConfidentRow(s, id);
    if id in s.rows && s.rows[id].status == PendingReview && s.rows[id].estimate.Some? {
      ConfidentEstimate(s.rows[id]);
    }
  }
}
