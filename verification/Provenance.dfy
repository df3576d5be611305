/** Where the stored differences of a case come from, in every run of the whole system. */
module Provenance {
  import opened Results
  import opened CaseStatus
  import opened Compare
  import opened CaseRepository
  import opened EventRepository
  import opened CompareLaws
  import opened WholeSystem
  import Evidence = EvidenceProtocol
  import Cases = CaseProtocol
  import CaseLaws
  import EvidenceLaws

  // ----- what a run has seen -----

  ghost function MarkersAt(start: State, steps: seq<Step>, n: nat): map<nat, Marker>
    requires n <= |steps|
  {
    Exec(start, steps[..n]).evidence.markers
  }

  /** At some moment of the run the events were the listing of the trace's markers. */
  ghost predicate Seen(start: State, steps: seq<Step>, traceId: nat, events: seq<ComparableEvent>) {
    exists n: nat, listing: seq<nat> :: n <= |steps| && Listed(MarkersAt(start, steps, n), traceId, listing, events)
  }

  lemma SeenNow(start: State, steps: seq<Step>, traceId: nat, listing: seq<nat>, events: seq<ComparableEvent>)
    requires Listed(Exec(start, steps).evidence.markers, traceId, listing, events)
    ensures Seen(start, steps, traceId, events)
  {
    assert steps[..|steps|] == steps;
    assert Listed(MarkersAt(start, steps, |steps|), traceId, listing, events);
  }

  lemma SeenLater(start: State, steps: seq<Step>, step: Step, traceId: nat, events: seq<ComparableEvent>)
    requires Seen(start, steps, traceId, events)
    ensures Seen(start, steps + [step], traceId, events)
  {
    var n: nat, listing: seq<nat> :| n <= |steps| && Listed(MarkersAt(start, steps, n), traceId, listing, events);
    assert (steps + [step])[..n] == steps[..n];
    assert Listed(MarkersAt(start, steps + [step], n), traceId, listing, events);
  }

  /** The differences are a sorted comparison of two listings, of these traces, seen at two moments of the run. */
  ghost predicate FromListings(start: State, steps: seq<Step>, baselineId: nat, currentId: nat, p: Parameters, ds: seq<Difference>) {
    exists baseline: seq<ComparableEvent>, current: seq<ComparableEvent> ::
      && Seen(start, steps, baselineId, baseline) && Seen(start, steps, currentId, current)
      && SortedPermutation(ds, Unsorted(baseline, current, p.tolerance, p.lossIncrease))
  }

  lemma FromListingsLater(start: State, steps: seq<Step>, step: Step, baselineId: nat, currentId: nat, p: Parameters, ds: seq<Difference>)
    requires FromListings(start, steps, baselineId, currentId, p, ds)
    ensures FromListings(start, steps + [step], baselineId, currentId, p, ds)
  {
    var baseline: seq<ComparableEvent>, current: seq<ComparableEvent> :|
      && Seen(start, steps, baselineId, baseline) && Seen(start, steps, currentId, current)
      && SortedPermutation(ds, Unsorted(baseline, current, p.tolerance, p.lossIncrease));
    SeenLater(start, steps, step, baselineId, baseline);
    SeenLater(start, steps, step, currentId, current);
  }

  // ----- what an analysis carries -----

  ghost predicate SameTraces(rows: map<nat, Case>, id: nat, item: Case) {
    id in rows && (rows[id].baselineTraceId, rows[id].currentTraceId) == (item.baselineTraceId, item.currentTraceId)
  }

  ghost predicate TracesKept(before: map<nat, Case>, after: map<nat, Case>) {
    forall id :: id in before ==> SameTraces(after, id, before[id])
  }

  /** What an analysing call remembers is of its case's traces, and what it has loaded has been seen. */
  ghost predicate PhaseFrom(start: State, steps: seq<Step>, rows: map<nat, Case>, call: Cases.Call) {
    call.request.Analyze? ==>
      match call.phase
      case AtStart(item) => SameTraces(rows, call.request.caseId, item)
      case AtBaseline(item, _) => SameTraces(rows, call.request.caseId, item)
      case AtCurrent(item, _, baseline) =>
        SameTraces(rows, call.request.caseId, item) && Seen(start, steps, item.baselineTraceId, baseline)
      case AtSave(item, _, Found(ds)) =>
        && SameTraces(rows, call.request.caseId, item)
        && FromListings(start, steps, item.baselineTraceId, item.currentTraceId, Cases.Effective(call.request, item.parameters), ds)
      case _ => true
  }

  lemma PhaseLater(start: State, steps: seq<Step>, step: Step, before: map<nat, Case>, after: map<nat, Case>, call: Cases.Call)
    requires PhaseFrom(start, steps, before, call) && TracesKept(before, after)
    ensures PhaseFrom(start, steps + [step], after, call)
  {
    if call.request.Analyze? {
      match call.phase {
        case AtCurrent(item, _, baseline) => SeenLater(start, steps, step, item.baselineTraceId, baseline);
        case AtSave(item, _, Found(ds)) =>
          FromListingsLater(start, steps, step, item.baselineTraceId, item.currentTraceId, Cases.Effective(call.request, item.parameters), ds);
        case _ =>
      }
    }
  }

  lemma ComparedFrom(start: State, steps: seq<Step>, s: State, step: Cases.Step, listing: seq<nat>)
    requires s == Exec(start, steps) && step.LoadCurrent? && ReadsStore(s, step, listing)
    requires Cases.NextPhase(s.cases, step).Some? && PhaseFrom(start, steps, s.cases.rows, s.cases.calls[step.call])
    ensures PhaseFrom(start, steps, s.cases.rows, s.cases.calls[step.call].(phase := Cases.NextPhase(s.cases, step).value))
  {
    var call := s.cases.calls[step.call];
    var p := Cases.Effective(call.request, call.phase.item.parameters);
    SeenNow(start, steps, call.phase.item.currentTraceId, listing, step.events);
    if Cases.AnalysisOf(call, call.phase.item, call.phase.baseline, step.events, step.sorted).Found? {
      assert SortedPermutation(step.sorted, Unsorted(call.phase.baseline, step.events, p.tolerance, p.lossIncrease));
      assert FromListings(start, steps, call.phase.item.baselineTraceId, call.phase.item.currentTraceId, p, step.sorted);
    }
  }

  lemma NextPhaseFrom(start: State, steps: seq<Step>, s: State, step: Cases.Step, listing: seq<nat>)
    requires s == Exec(start, steps) && ReadsStore(s, step, listing)
    requires Cases.NextPhase(s.cases, step).Some? && PhaseFrom(start, steps, s.cases.rows, s.cases.calls[step.call])
    ensures PhaseFrom(start, steps, s.cases.rows, s.cases.calls[step.call].(phase := Cases.NextPhase(s.cases, step).value))
  {
    if step.LoadBaseline? {
      SeenNow(start, steps, s.cases.calls[step.call].phase.item.baselineTraceId, listing, step.events);
    } else if step.LoadCurrent? {
      ComparedFrom(start, steps, s, step, listing);
    }
  }

  // ----- what is stored -----

  /** From completion on the stored differences come from listings of the case's traces with its stored parameters. */
  ghost predicate RowFrom(start: State, steps: seq<Step>, row: Case) {
    CaseLaws.Completed(row.status) ==>
      FromListings(start, steps, row.baselineTraceId, row.currentTraceId, row.parameters, row.differences)
  }

  lemma RowLater(start: State, steps: seq<Step>, step: Step, row: Case)
    requires RowFrom(start, steps, row)
    ensures RowFrom(start, steps + [step], row)
  {
    if CaseLaws.Completed(row.status) {
      FromListingsLater(start, steps, step, row.baselineTraceId, row.currentTraceId, row.parameters, row.differences);
    }
  }

  /** The row is what a successful save makes of its case. */
  ghost predicate SavedBy(s: Cases.State, step: Cases.Step, id: nat, row: Case) {
    && step.Save? && step.call in s.calls && s.calls[step.call].request.Analyze? && s.calls[step.call].request.caseId == id
    && s.calls[step.call].phase.AtSave?
    && s.calls[step.call].phase.analysis == Cases.Found(row.differences)
    && row.parameters == Cases.Effective(s.calls[step.call].request, s.calls[step.call].phase.item.parameters)
    && SameTraces(s.rows, id, row)
  }

  /** A completed row is the saved one, or has its result from the completed row before. */
  lemma CompletedRowStep(s: Cases.State, step: Cases.Step, id: nat)
    requires id in Cases.Next(s, step).rows && CaseLaws.Completed(Cases.Next(s, step).rows[id].status)
    ensures var row := Cases.Next(s, step).rows[id];
            || SavedBy(s, step, id, row)
            || (&& SameTraces(s.rows, id, row) && CaseLaws.Completed(s.rows[id].status)
                && s.rows[id].parameters == row.parameters && s.rows[id].differences == row.differences)
  {
  }

  lemma RowsKeepTraces(s: Cases.State, step: Cases.Step)
    ensures TracesKept(s.rows, Cases.Next(s, step).rows)
  {
    CaseLaws.StepEvolves(s, step);
    forall id | id in s.rows
      ensures SameTraces(Cases.Next(s, step).rows, id, s.rows[id])
    {
      CaseStepKeepsReferences(s, step, id);
    }
  }

  // ----- every run -----

  ghost predicate CallsFrom(start: State, steps: seq<Step>, s: Cases.State) {
    forall c :: c in s.calls ==> PhaseFrom(start, steps, s.rows, s.calls[c])
  }

  ghost predicate RowsFrom(start: State, steps: seq<Step>, s: Cases.State) {
    forall id :: id in s.rows ==> RowFrom(start, steps, s.rows[id])
  }

  lemma CallStaysFrom(start: State, steps: seq<Step>, s: State, c: Cases.Step, listing: seq<nat>, call: nat)
    requires s == Exec(start, steps) && ReadsStore(s, c, listing) && CallsFrom(start, steps, s.cases)
    requires call in Cases.Next(s.cases, c).calls
    ensures PhaseFrom(start, steps + [OnCases(c, listing)], Cases.Next(s.cases, c).rows, Cases.Next(s.cases, c).calls[call])
  {
    RowsKeepTraces(s.cases, c);
    if Cases.NextPhase(s.cases, c).Some? && call == c.call {
      NextPhaseFrom(start, steps, s, c, listing);
    }
    PhaseLater(start, steps, OnCases(c, listing), s.cases.rows, Cases.Next(s.cases, c).rows, Cases.Next(s.cases, c).calls[call]);
  }

  lemma RowStaysFrom(start: State, steps: seq<Step>, s: Cases.State, c: Cases.Step, listing: seq<nat>, id: nat)
    requires CallsFrom(start, steps, s) && RowsFrom(start, steps, s) && id in Cases.Next(s, c).rows
    ensures RowFrom(start, steps + [OnCases(c, listing)], Cases.Next(s, c).rows[id])
  {
    var row := Cases.Next(s, c).rows[id];
    if CaseLaws.Completed(row.status) {
      CompletedRowStep(s, c, id);
      if SavedBy(s, c, id, row) {
        assert PhaseFrom(start, steps, s.rows, s.calls[c.call]);
      } else {
        assert RowFrom(start, steps, s.rows[id]);
      }
      RowLater(start, steps, OnCases(c, listing), row);
    }
  }

  lemma OtherStepKeeps(start: State, steps: seq<Step>, s: Cases.State, step: Step, t: Cases.State)
    requires CallsFrom(start, steps, s) && RowsFrom(start, steps, s) && t.rows == s.rows && t.calls == s.calls
    ensures CallsFrom(start, steps + [step], t) && RowsFrom(start, steps + [step], t)
  {
    forall c | c in t.calls
      ensures PhaseFrom(start, steps + [step], t.rows, t.calls[c])
    {
      PhaseLater(start, steps, step, s.rows, t.rows, s.calls[c]);
    }
    forall id | id in t.rows
      ensures RowFrom(start, steps + [step], t.rows[id])
    {
      RowLater(start, steps, step, s.rows[id]);
    }
  }

  lemma StepKeepsProvenance(start: State, steps: seq<Step>, s: State, step: Step)
    requires s == Exec(start, steps) && CallsFrom(start, steps, s.cases) && RowsFrom(start, steps, s.cases)
    ensures CallsFrom(start, steps + [step], Next(s, step).cases) && RowsFrom(start, steps + [step], Next(s, step).cases)
  {
    if step.OnCases? && !step.caseStep.Tick? && ReadsStore(s, step.caseStep, step.listing) {
      forall c | c in Cases.Next(s.cases, step.caseStep).calls
        ensures PhaseFrom(start, steps + [step], Cases.Next(s.cases, step.caseStep).rows, Cases.Next(s.cases, step.caseStep).calls[c])
      {
        CallStaysFrom(start, steps, s, step.caseStep, step.listing, c);
      }
      forall id | id in Cases.Next(s.cases, step.caseStep).rows
        ensures RowFrom(start, steps + [step], Cases.Next(s.cases, step.caseStep).rows[id])
      {
        RowStaysFrom(start, steps, s.cases, step.caseStep, step.listing, id);
      }
    } else {
      OtherStepKeeps(start, steps, s.cases, step, Next(s, step).cases);
    }
  }

  lemma {:induction false} ProvenanceInEveryRun(clock: int, maxPoints: nat, steps: seq<Step>)
    ensures var start, s := Initial(clock, maxPoints), Exec(Initial(clock, maxPoints), steps).cases;
            CallsFrom(start, steps, s) && RowsFrom(start, steps, s)
  {
    if steps != [] {
      var init, step := steps[..|steps| - 1], steps[|steps| - 1];
      assert steps == init + [step];
      ProvenanceInEveryRun(clock, maxPoints, init);
      StepKeepsProvenance(Initial(clock, maxPoints), init, Exec(Initial(clock, maxPoints), init), step);
    }
  }

  /**
   In every run the differences of a case pending review, confirmed or closed are a sorted
   permutation of the comparison, with the stored parameters, of a listing of its baseline trace
   and a listing of its current trace, each as stored at some moment of that run.
   */
  lemma DifferencesCompareListings(clock: int, maxPoints: nat, steps: seq<Step>, id: nat)
    ensures var s := Exec(Initial(clock, maxPoints), steps).cases;
            id in s.rows && CaseLaws.Completed(s.rows[id].status) ==>
              FromListings(Initial(clock, maxPoints), steps, s.rows[id].baselineTraceId, s.rows[id].currentTraceId,
                           s.rows[id].parameters, s.rows[id].differences)
  {
    ProvenanceInEveryRun(clock, maxPoints, steps);
    var s := Exec(Initial(clock, maxPoints), steps).cases;
    assert id in s.rows ==> RowFrom(Initial(clock, maxPoints), steps, s.rows[id]);
  }

  // ----- no marker in two differences -----

  lemma SeenIsDistinct(start: State, steps: seq<Step>, traceId: nat, events: seq<ComparableEvent>)
    requires Seen(start, steps, traceId, events)
    ensures DistinctIds(events)
  {
    var n: nat, listing: seq<nat> :| n <= |steps| && Listed(MarkersAt(start, steps, n), traceId, listing, events);
    forall i, j | 0 <= i < j < |events|
      ensures events[i].id != events[j].id
    {
      assert events[i].id == listing[i] && events[j].id == listing[j];
    }
  }

  lemma {:induction false} NoneCounted(ds: seq<Difference>, test: Test)
    requires forall d :: d in ds ==> !test.Holds(d)
    ensures Count(ds, test) == 0
  {
    if ds != [] {
      assert ds[0] in ds && forall d :: d in ds[1..] ==> d in ds;
      NoneCounted(ds[1..], test);
    }
  }

  ghost predicate Mentions(events: seq<ComparableEvent>, id: nat) {
    exists i :: 0 <= i < |events| && events[i].id == id
  }

  lemma JustifiedNames(d: Difference, baseline: seq<ComparableEvent>, current: seq<ComparableEvent>, tolerance: real, lossIncrease: real, id: nat)
    requires Justified(d, baseline, current, tolerance, lossIncrease)
    ensures NamesBaseline(id).Holds(d) ==> Mentions(baseline, id)
    ensures NamesCurrent(id).Holds(d) ==> Mentions(current, id)
  {
  }

  /** Differences name only events that were compared, each in one difference at most. */
  lemma NamedAtMostOnce(ds: seq<Difference>, baseline: seq<ComparableEvent>, current: seq<ComparableEvent>, p: Parameters, id: nat)
    requires SortedPermutation(ds, Unsorted(baseline, current, p.tolerance, p.lossIncrease))
    requires DistinctIds(baseline) && DistinctIds(current)
    ensures Count(ds, NamesBaseline(id)) <= 1 && (!Mentions(baseline, id) ==> Count(ds, NamesBaseline(id)) == 0)
    ensures Count(ds, NamesCurrent(id)) <= 1 && (!Mentions(current, id) ==> Count(ds, NamesCurrent(id)) == 0)
  {
    EachEventAtMostOnce(ds, baseline, current, p.tolerance, p.lossIncrease);
    forall d | d in ds
      ensures NamesBaseline(id).Holds(d) ==> Mentions(baseline, id)
      ensures NamesCurrent(id).Holds(d) ==> Mentions(current, id)
    {
      ReportedIffJustified(ds, baseline, current, p.tolerance, p.lossIncrease, d);
      JustifiedNames(d, baseline, current, p.tolerance, p.lossIncrease, id);
    }
    if !Mentions(baseline, id) {
      NoneCounted(ds, NamesBaseline(id));
    }
    if !Mentions(current, id) {
      NoneCounted(ds, NamesCurrent(id));
    }
  }

  /** At some moment of the run the marker was one of the trace. */
  ghost predicate BelongedTo(start: State, steps: seq<Step>, id: nat, traceId: nat) {
    exists n: nat :: n <= |steps| && id in MarkersAt(start, steps, n) && MarkersAt(start, steps, n)[id].traceId == traceId
  }

  lemma MentionedBelonged(start: State, steps: seq<Step>, traceId: nat, events: seq<ComparableEvent>, id: nat)
    requires Seen(start, steps, traceId, events) && Mentions(events, id)
    ensures BelongedTo(start, steps, id, traceId)
  {
    var n: nat, listing: seq<nat> :| n <= |steps| && Listed(MarkersAt(start, steps, n), traceId, listing, events);
    var i :| 0 <= i < |events| && events[i].id == id;
    assert listing[i] in listing && listing[i] == id;
    assert id in MarkersAt(start, steps, n);
  }

  /** Between two moments of a run no marker changes its trace. */
  lemma MarkersStayOnTrace(clock: int, maxPoints: nat, steps: seq<Step>, n: nat, m: nat, id: nat)
    requires n <= m <= |steps|
    requires id in MarkersAt(Initial(clock, maxPoints), steps, n) && id in MarkersAt(Initial(clock, maxPoints), steps, m)
    ensures MarkersAt(Initial(clock, maxPoints), steps, n)[id].traceId == MarkersAt(Initial(clock, maxPoints), steps, m)[id].traceId
  {
    var start := Initial(clock, maxPoints);
    assert steps[..m] == steps[..n] + steps[n..m];
    ExecConcat(start, steps[..n], steps[n..m]);
    RunsProject(clock, maxPoints, steps[..n]);
    ExecProjects(Exec(start, steps[..n]), steps[n..m]);
    ReachedKeepsTrace(clock, maxPoints, Exec(start, steps[..n]).evidence, Exec(start, steps[..m]).evidence, id);
  }

  lemma ReachedKeepsTrace(clock: int, maxPoints: nat, s: Evidence.State, t: Evidence.State, id: nat)
    requires Evidence.Reaches(Evidence.Initial(clock, maxPoints), s) && Evidence.Reaches(s, t) && id in s.markers && id in t.markers
    ensures s.markers[id].traceId == t.markers[id].traceId
  {
    var before: seq<Evidence.Step> :| Evidence.Exec(Evidence.Initial(clock, maxPoints), before) == s;
    var after: seq<Evidence.Step> :| Evidence.Exec(s, after) == t;
    Evidence.ExecConcat(Evidence.Initial(clock, maxPoints), before, after);
    EvidenceLaws.NothingIsLost(clock, maxPoints, before, after);
    assert EvidenceLaws.SameAlgorithmFigures(s.markers[id], t.markers[id]);
  }

  lemma BelongedToOne(clock: int, maxPoints: nat, steps: seq<Step>, id: nat, a: nat, b: nat)
    requires BelongedTo(Initial(clock, maxPoints), steps, id, a) && BelongedTo(Initial(clock, maxPoints), steps, id, b)
    ensures a == b
  {
    var start := Initial(clock, maxPoints);
    var n: nat :| n <= |steps| && id in MarkersAt(start, steps, n) && MarkersAt(start, steps, n)[id].traceId == a;
    var m: nat :| m <= |steps| && id in MarkersAt(start, steps, m) && MarkersAt(start, steps, m)[id].traceId == b;
    if n <= m {
      MarkersStayOnTrace(clock, maxPoints, steps, n, m, id);
    } else {
      MarkersStayOnTrace(clock, maxPoints, steps, m, n, id);
    }
  }

  lemma FromListingsNamesOnce(clock: int, maxPoints: nat, steps: seq<Step>, baselineId: nat, currentId: nat, p: Parameters, ds: seq<Difference>, id: nat)
    requires FromListings(Initial(clock, maxPoints), steps, baselineId, currentId, p, ds) && baselineId != currentId
    ensures Count(ds, NamesBaseline(id)) + Count(ds, NamesCurrent(id)) <= 1
  {
    var start := Initial(clock, maxPoints);
    var baseline: seq<ComparableEvent>, current: seq<ComparableEvent> :|
      && Seen(start, steps, baselineId, baseline) && Seen(start, steps, currentId, current)
      && SortedPermutation(ds, Unsorted(baseline, current, p.tolerance, p.lossIncrease));
    SeenIsDistinct(start, steps, baselineId, baseline);
    SeenIsDistinct(start, steps, currentId, current);
    NamedAtMostOnce(ds, baseline, current, p, id);
    if Mentions(baseline, id) && Mentions(current, id) {
      MentionedBelonged(start, steps, baselineId, baseline, id);
      MentionedBelonged(start, steps, currentId, current, id);
      BelongedToOne(clock, maxPoints, steps, id, baselineId, currentId);
    }
  }

  /** In every run no marker takes part in two of the stored differences of a case, in whichever role. */
  lemma MarkersInOneDifference(clock: int, maxPoints: nat, steps: seq<Step>, caseId: nat, id: nat)
    ensures var s := Exec(Initial(clock, maxPoints), steps).cases;
            caseId in s.rows && CaseLaws.Completed(s.rows[caseId].status) ==>
              Count(s.rows[caseId].differences, NamesBaseline(id)) + Count(s.rows[caseId].differences, NamesCurrent(id)) <= 1
  {
    var s := Exec(Initial(clock, maxPoints), steps).cases;
    DifferencesCompareListings(clock, maxPoints, steps, caseId);
    CasesReferToTracesOfTheirRoute(clock, maxPoints, steps, caseId);
    if caseId in s.rows && CaseLaws.Completed(s.rows[caseId].status) {
      var row := s.rows[caseId];
      FromListingsNamesOnce(clock, maxPoints, steps, row.baselineTraceId, row.currentTraceId, row.parameters, row.differences, id);
    }
  }
}
