/**
 What every transaction on a case writes and audits, field by field, and what of it stays: said
 without the functions from which the protocol's steps are built.
 */
module CaseWriteLaws {
  import opened Results
  import opened CaseStatus
  import opened Compare
  import opened CaseRepository
  import opened CaseProtocol
  import opened CaseLaws
  import PrimaryLaws

  // ----- the parameters of an analysis -----

  /** The request's own parameters if it names them, else those read with the case, else 25 m and 0.5 dB. */
  predicate UsesParameters(p: Parameters, request: Request, read: Parameters)
    requires request.Analyze?
  {
    && p.tolerance == (if request.tolerance != 0.0 then request.tolerance else if read.tolerance != 0.0 then read.tolerance else 25.0)
    && p.lossIncrease == (if request.lossIncrease != 0.0 then request.lossIncrease else if read.lossIncrease != 0.0 then read.lossIncrease else 0.5)
  }

  /** A comparison needs events of both traces and positive parameters; its result is what the sort made of it. */
  lemma AnalysisIs(call: Call, item: Case, baseline: seq<ComparableEvent>, current: seq<ComparableEvent>, sorted: seq<Difference>)
    requires call.request.Analyze?
    ensures var analysis, p := AnalysisOf(call, item, baseline, current, sorted), Effective(call.request, item.parameters);
            && (analysis.Found? <==> baseline != [] && current != [] && p.tolerance > 0.0 && p.lossIncrease > 0.0)
            && (analysis.Found? ==> analysis.differences == sorted)
            && (baseline == [] || current == [] ==> analysis == Failed("both traces require detected events"))
  {
  }

  // ----- the transactions -----

  /** The step replaces one row and appends one entry, and nothing else of the store. */
  ghost predicate Writes(s: State, step: Step, id: nat, row: Case, entry: Entry) {
    Next(s, step).rows == s.rows[id := row] && Next(s, step).audits == s.audits + [entry]
  }

  ghost predicate WritesNothing(s: State, step: Step) {
    Next(s, step).rows == s.rows && Next(s, step).audits == s.audits
  }

  /** A new case is a draft at version 1 with the request's parameters, or 25 m and 0.5 dB, and no result. */
  lemma CreateWrites(s: State, id: nat, routeId: nat, baselineId: nat, currentId: nat, tolerance: real, lossIncrease: real, actor: nat, belong: bool)
    ensures var step := Create(id, routeId, baselineId, currentId, tolerance, lossIncrease, actor, belong);
            var p := Parameters(if tolerance != 0.0 then tolerance else 25.0, if lossIncrease != 0.0 then lossIncrease else 0.5);
            var row := Case(routeId, baselineId, currentId, Draft, None, None, "", None, None, "", p, [], 1, actor, s.clock);
            if id !in s.rows && baselineId != currentId && belong
            then Writes(s, step, id, row, Entry(actor, Created, id, Nothing, Record(row)))
            else WritesNothing(s, step)
  {
  }

  /** A start succeeds on the draft of the version that was read; it clears the error and dates the epoch. */
  lemma StartWritesRow(s: State, c: nat, item: Case)
    requires c in s.calls && s.calls[c].request.Analyze? && s.calls[c].phase == AtStart(item)
    ensures var id, actor := s.calls[c].request.caseId, s.calls[c].request.actor;
            if id in s.rows && s.rows[id].status == Draft && s.rows[id].version == item.version
            then
              && Writes(s, Start(c), id,
                        s.rows[id].(status := Analyzing, analysisError := "", version := item.version + 1, updatedAt := s.clock),
                        Entry(actor, AnalysisStarted, id, StatusOnly(item.status), StatusOnly(Analyzing)))
              && Next(s, Start(c)).calls[c].phase == AtBaseline(item.(status := Analyzing, version := item.version + 1), s.clock)
            else WritesNothing(s, Start(c))
  {
  }

  /** A recovery succeeds on an analysis not updated for more than ten minutes, and says why it reset it. */
  lemma RecoverWritesRow(s: State, c: nat)
    requires c in s.calls && s.calls[c].request.Analyze? && s.calls[c].phase.AtRecovery?
    ensures var id, actor := s.calls[c].request.caseId, s.calls[c].request.actor;
            if id in s.rows && s.rows[id].status == Analyzing && s.rows[id].updatedAt < s.clock - 600
            then Writes(s, Recover(c), id,
                        s.rows[id].(status := Draft, analysisError := "previous analysis worker expired; please retry",
                                    version := s.rows[id].version + 1, updatedAt := s.clock),
                        Entry(actor, AnalysisRecovered, id, StatusOnly(Analyzing), StatusOnly(Draft)))
            else WritesNothing(s, Recover(c))
  {
  }

  /** A failed analysis puts the case back to draft with its error, whatever the version. */
  lemma FailureWritesRow(s: State, c: nat, item: Case, startedAt: int, error: string)
    requires c in s.calls && s.calls[c].request.Analyze? && s.calls[c].phase == AtSave(item, startedAt, Failed(error))
    ensures var id, actor := s.calls[c].request.caseId, s.calls[c].request.actor;
            if id in s.rows && s.rows[id].status == Analyzing
            then Writes(s, Save(c), id,
                        s.rows[id].(status := Draft, analysisError := error, version := s.rows[id].version + 1, updatedAt := s.clock),
                        Entry(actor, AnalysisFailed, id, Nothing, ErrorText(error)))
            else WritesNothing(s, Save(c))
  {
  }

  /** The row after a save that found differences: the estimate is the chosen difference's, or left alone when there is none. */
  ghost predicate IsCompleted(row: Case, was: Case, ds: seq<Difference>, p: Parameters, clock: int) {
    if ds == [] then
      row == was.(status := PendingReview, differences := [], parameters := p, analysisError := "", version := was.version + 1, updatedAt := clock)
    else
      exists e: Estimate, k: nat ::
        && PrimaryLaws.Estimates(e, ds, k)
        && row == was.(status := PendingReview, estimate := Some(e.distance), uncertainty := Some(e.uncertainty), differences := ds,
                       parameters := p, analysisError := "", version := was.version + 1, updatedAt := clock)
  }

  /** A completed analysis stores its differences, the parameters it used and the estimate, whatever the version. */
  lemma CompletionWritesRow(s: State, c: nat, item: Case, startedAt: int, ds: seq<Difference>) returns (p: Parameters)
    requires c in s.calls && s.calls[c].request.Analyze? && s.calls[c].phase == AtSave(item, startedAt, Found(ds))
    ensures UsesParameters(p, s.calls[c].request, item.parameters)
    ensures var id, actor, t := s.calls[c].request.caseId, s.calls[c].request.actor, Next(s, Save(c));
            if id in s.rows && s.rows[id].status == Analyzing
            then
              && id in t.rows && IsCompleted(t.rows[id], s.rows[id], ds, p, s.clock)
              && Writes(s, Save(c), id, t.rows[id], Entry(actor, AnalysisCompleted, id, Nothing, Outcome(|ds|, p)))
            else WritesNothing(s, Save(c))
  {
    p := Effective(s.calls[c].request, item.parameters);
    PrimaryLaws.PrimaryIs(ds);
    if ds != [] {
      var k: nat :| PrimaryLaws.Estimates(Primary(ds).value, ds, k);
    }
  }

  /** A Confirm succeeds on the pending case of its version; it stores the request's decision and nothing else. */
  lemma ConfirmWritesRow(s: State, c: nat, item: Case, at: int)
    requires c in s.calls && s.calls[c].request.Confirm? && s.calls[c].phase == AtCommit(item, at)
    ensures var r := s.calls[c].request;
            if r.caseId in s.rows && s.rows[r.caseId].status == PendingReview && s.rows[r.caseId].version == r.version
            then Writes(s, Commit(c), r.caseId,
                        s.rows[r.caseId].(status := Confirmed, conclusion := r.conclusion, estimate := Some(r.estimate),
                                          uncertainty := Some(r.uncertainty), reviewerId := Some(r.actor),
                                          version := r.version + 1, updatedAt := s.clock),
                        Entry(r.actor, CaseConfirmed, r.caseId, Record(item), Decision(r.conclusion, r.estimate, r.uncertainty, r.version)))
            else WritesNothing(s, Commit(c))
  {
  }

  /** A Close succeeds on the confirmed case of its version; it stores the instant it read and nothing else. */
  lemma CloseWritesRow(s: State, c: nat, item: Case, at: int)
    requires c in s.calls && s.calls[c].request.Close? && s.calls[c].phase == AtCommit(item, at)
    ensures var r := s.calls[c].request;
            if r.caseId in s.rows && s.rows[r.caseId].status == Confirmed && s.rows[r.caseId].version == r.version
            then Writes(s, Commit(c), r.caseId,
                        s.rows[r.caseId].(status := Closed, closedAt := Some(at), version := r.version + 1, updatedAt := s.clock),
                        Entry(r.actor, CaseClosed, r.caseId, Record(item), StatusOnly(Closed)))
            else WritesNothing(s, Commit(c))
  {
  }

  /** What a call makes of the row it reads, or of its absence. */
  lemma ReadDecides(s: State, c: nat)
    requires c in s.calls && (s.calls[c].phase.Begun? || s.calls[c].phase.AtReload?)
    ensures WritesNothing(s, Read(c))
    ensures var r, was, now := s.calls[c].request, s.calls[c].phase, Next(s, Read(c)).calls[c].phase;
            if r.caseId !in s.rows then now == Finished
            else
              var item := s.rows[r.caseId];
              match r
              case Analyze(_, _, _, _) =>
                now == (if item.status == Draft then AtStart(item)
                        else if item.status == Analyzing && was.Begun? then AtRecovery(item) else Finished)
              case Confirm(_, _, _, _, _, _, role) =>
                now == (if (role == Reviewer || role == Admin) && item.status != Closed then AtCommit(item, s.clock) else Finished)
              case Close(_, _, _) => now == AtCommit(item, s.clock)
  {
  }

  // ----- who may confirm -----

  ghost predicate CommitAllowed(s: State, c: nat) {
    c in s.calls && s.calls[c].phase.AtCommit? ==>
      && s.calls[c].phase.at <= s.clock
      && (s.calls[c].request.Confirm? ==> s.calls[c].request.role != Analyst && s.calls[c].phase.item.status != Closed)
  }

  lemma StepKeepsAllowed(s: State, step: Step, c: nat)
    requires CommitAllowed(s, c)
    ensures CommitAllowed(Next(s, step), c)
  {
  }

  /** In every run a Confirm that comes to its transaction is a reviewer's or an admin's, and its instant is past. */
  lemma {:induction false} OnlyReviewersConfirm(clock: int, steps: seq<Step>, c: nat)
    ensures CommitAllowed(Exec(Initial(clock), steps), c)
  {
    if steps != [] {
      OnlyReviewersConfirm(clock, steps[..|steps| - 1], c);
      StepKeepsAllowed(Exec(Initial(clock), steps[..|steps| - 1]), steps[|steps| - 1], c);
    }
  }

  // ----- what stays -----

  predicate Decided(item: Case) { item.status == Confirmed || item.status == Closed }

  ghost predicate SameDecision(a: Case, b: Case) {
    && a.conclusion == b.conclusion && a.estimate == b.estimate && a.uncertainty == b.uncertainty && a.reviewerId == b.reviewerId
    && a.differences == b.differences && a.parameters == b.parameters
  }

  /** A decided case stays so with its decision; a case not completed has had its parameters all along. */
  ghost predicate Stays(was: Case, now: Case) {
    && (Decided(was) ==> Decided(now) && SameDecision(was, now))
    && (!Completed(now.status) ==> !Completed(was.status) && was.parameters == now.parameters)
  }

  lemma StepStays(s: State, step: Step, id: nat)
    requires id in s.rows
    ensures id in Next(s, step).rows && Stays(s.rows[id], Next(s, step).rows[id])
  {
    EveryEffectIsLegal(s, step);
  }

  lemma {:induction false} DecisionsStay(s: State, steps: seq<Step>, id: nat)
    requires id in s.rows
    ensures id in Exec(s, steps).rows && Stays(s.rows[id], Exec(s, steps).rows[id])
  {
    if steps != [] {
      DecisionsStay(s, steps[..|steps| - 1], id);
      StepStays(Exec(s, steps[..|steps| - 1]), steps[|steps| - 1], id);
    }
  }

  lemma ReachedStays(s: State, t: State, id: nat)
    requires Reaches(s, t) && id in s.rows
    ensures id in t.rows && Stays(s.rows[id], t.rows[id])
  {
    var steps: seq<Step> :| Exec(s, steps) == t;
    DecisionsStay(s, steps, id);
  }

  // ----- a decided case and the log -----

  /** The entry of the decision that the row carries. */
  ghost predicate RecordsDecision(e: Entry, id: nat, row: Case) {
    && e.caseId == id && e.action == CaseConfirmed && e.after.Decision?
    && row.conclusion == e.after.conclusion && row.estimate == Some(e.after.estimate)
    && row.uncertainty == Some(e.after.uncertainty) && row.reviewerId == Some(e.actor)
  }

  ghost predicate DecisionLogged(audits: seq<Entry>, id: nat, row: Case) {
    exists k :: 0 <= k < |audits| && RecordsDecision(audits[k], id, row)
  }

  lemma LoggedLater(before: seq<Entry>, after: seq<Entry>, id: nat, row: Case, later: Case)
    requires DecisionLogged(before, id, row) && before <= after && SameDecision(row, later)
    ensures DecisionLogged(after, id, later)
  {
    var k :| 0 <= k < |before| && RecordsDecision(before[k], id, row);
    assert RecordsDecision(after[k], id, later);
  }

  /** A row becomes decided by a Confirm, which logs what it stores. */
  lemma DecidedByConfirm(s: State, step: Step, id: nat)
    requires id in Next(s, step).rows && Decided(Next(s, step).rows[id]) && !(id in s.rows && Decided(s.rows[id]))
    ensures DecisionLogged(Next(s, step).audits, id, Next(s, step).rows[id])
  {
    EveryEffectIsLegal(s, step);
    assert step.Commit? && step.call in s.calls && s.calls[step.call].request.Confirm? && s.calls[step.call].phase.AtCommit?;
    ConfirmWritesRow(s, step.call, s.calls[step.call].phase.item, s.calls[step.call].phase.at);
    assert RecordsDecision(Next(s, step).audits[|s.audits|], id, Next(s, step).rows[id]);
  }

  /** In every run a confirmed or closed case carries exactly the decision of a logged confirmation. */
  lemma {:induction false} DecidedCasesShowTheirDecision(clock: int, steps: seq<Step>, id: nat)
    ensures var s := Exec(Initial(clock), steps);
            id in s.rows && Decided(s.rows[id]) ==> DecisionLogged(s.audits, id, s.rows[id])
  {
    if steps != [] {
      var before, step := Exec(Initial(clock), steps[..|steps| - 1]), steps[|steps| - 1];
      DecidedCasesShowTheirDecision(clock, steps[..|steps| - 1], id);
      StepKeepsLogged(before, step, id);
    }
  }

  lemma StepKeepsLogged(s: State, step: Step, id: nat)
    requires id in s.rows && Decided(s.rows[id]) ==> DecisionLogged(s.audits, id, s.rows[id])
    ensures id in Next(s, step).rows && Decided(Next(s, step).rows[id]) ==> DecisionLogged(Next(s, step).audits, id, Next(s, step).rows[id])
  {
    if id in Next(s, step).rows && Decided(Next(s, step).rows[id]) {
      if id in s.rows && Decided(s.rows[id]) {
        StepStays(s, step, id);
        StepEvolves(s, step);
        LoggedLater(s.audits, Next(s, step).audits, id, s.rows[id], Next(s, step).rows[id]);
      } else {
        DecidedByConfirm(s, step, id);
      }
    }
  }

  /** A case is confirmed at most once and closed at most once. */
  lemma {:induction false} DecidedOnce(actions: seq<Action>)
    requires Fold(actions).At?
    ensures CountOf(actions, CaseConfirmed) == if Fold(actions).status in {Confirmed, Closed} then 1 else 0
    ensures CountOf(actions, CaseClosed) == if Fold(actions).status == Closed then 1 else 0
  {
    if |actions| > 1 {
      FoldPrefix(actions, |actions| - 1);
      DecidedOnce(actions[..|actions| - 1]);
    } else {
      assert actions == [actions[0]];
      assert actions[..0] == [];
    }
  }

  // ----- the parameters that an analysis has used -----

  /** The case was created with these parameters. */
  ghost predicate CreatedWith(audits: seq<Entry>, id: nat, p: Parameters) {
    exists k :: 0 <= k < |audits| && audits[k].caseId == id && audits[k].action == Created
      && audits[k].after.Record? && audits[k].after.item.parameters == p
  }

  lemma CreatedLater(before: seq<Entry>, after: seq<Entry>, id: nat, p: Parameters)
    requires CreatedWith(before, id, p) && before <= after
    ensures CreatedWith(after, id, p)
  {
    var k :| 0 <= k < |before| && before[k].caseId == id && before[k].action == Created
      && before[k].after.Record? && before[k].after.item.parameters == p;
    assert after[k] == before[k];
  }

  /** The parameters that an analysing call has read are those of the creation. */
  ghost predicate ReadParameters(audits: seq<Entry>, call: Call) {
    call.request.Analyze? ==>
      match call.phase
      case AtStart(item) => CreatedWith(audits, call.request.caseId, item.parameters)
      case AtBaseline(item, _) => CreatedWith(audits, call.request.caseId, item.parameters)
      case AtCurrent(item, _, _) => CreatedWith(audits, call.request.caseId, item.parameters)
      case AtSave(item, _, _) => CreatedWith(audits, call.request.caseId, item.parameters)
      case _ => true
  }

  /** Some analysis of the case used these parameters, by its request and those of the creation, and logged so. */
  ghost predicate UsedByAnalysis(s: State, id: nat, count: nat, p: Parameters, c: nat, read: Parameters) {
    && c in s.calls && s.calls[c].request.Analyze? && s.calls[c].request.caseId == id
    && CreatedWith(s.audits, id, read) && UsesParameters(p, s.calls[c].request, read)
    && exists k :: 0 <= k < |s.audits| && s.audits[k] == Entry(s.calls[c].request.actor, AnalysisCompleted, id, Nothing, Outcome(count, p))
  }

  ghost predicate RowParameters(s: State, id: nat) {
    id in s.rows ==>
      if Completed(s.rows[id].status)
      then exists c: nat, read: Parameters :: UsedByAnalysis(s, id, |s.rows[id].differences|, s.rows[id].parameters, c, read)
      else CreatedWith(s.audits, id, s.rows[id].parameters)
  }

  lemma CallsKeepRequests(s: State, step: Step, c: nat)
    requires c in s.calls
    ensures c in Next(s, step).calls && Next(s, step).calls[c].request == s.calls[c].request
  {
  }

  lemma UsedLater(s: State, step: Step, id: nat, count: nat, p: Parameters, c: nat, read: Parameters)
    requires UsedByAnalysis(s, id, count, p, c, read)
    ensures UsedByAnalysis(Next(s, step), id, count, p, c, read)
  {
    StepEvolves(s, step);
    CallsKeepRequests(s, step, c);
    CreatedLater(s.audits, Next(s, step).audits, id, read);
    var k :| 0 <= k < |s.audits| && s.audits[k] == Entry(s.calls[c].request.actor, AnalysisCompleted, id, Nothing, Outcome(count, p));
    assert Next(s, step).audits[k] == s.audits[k];
  }

  /** An analysing call's item is the one it had, or the draft it has just read. */
  lemma ItemStep(s: State, step: Step, c: nat)
    requires c in s.calls && s.calls[c].request.Analyze? && ReadParameters(s.audits, s.calls[c])
    requires step == Read(c) && s.calls[c].request.caseId in s.rows && s.rows[s.calls[c].request.caseId].status == Draft ==>
               CreatedWith(s.audits, s.calls[c].request.caseId, s.rows[s.calls[c].request.caseId].parameters)
    ensures ReadParameters(s.audits, Next(s, step).calls[c])
  {
  }

  lemma ReadLater(before: seq<Entry>, after: seq<Entry>, call: Call)
    requires ReadParameters(before, call) && before <= after
    ensures ReadParameters(after, call)
  {
    if call.request.Analyze? && (call.phase.AtStart? || call.phase.AtBaseline? || call.phase.AtCurrent? || call.phase.AtSave?) {
      CreatedLater(before, after, call.request.caseId, call.phase.item.parameters);
    }
  }

  lemma CallStaysRead(s: State, step: Step, c: nat)
    requires c in s.calls ==> ReadParameters(s.audits, s.calls[c])
    requires c in s.calls && s.calls[c].request.caseId in s.rows ==> RowParameters(s, s.calls[c].request.caseId)
    ensures c in Next(s, step).calls ==> ReadParameters(Next(s, step).audits, Next(s, step).calls[c])
  {
    StepEvolves(s, step);
    if c in s.calls {
      CallsKeepRequests(s, step, c);
      if s.calls[c].request.Analyze? {
        ItemStep(s, step, c);
        ReadLater(s.audits, Next(s, step).audits, Next(s, step).calls[c]);
      }
    }
  }

  /** A row changes its parameters or becomes completed only by the save of a completed analysis. */
  lemma CompletedBySave(s: State, step: Step, id: nat)
    requires id in Next(s, step).rows && Completed(Next(s, step).rows[id].status) && !(id in s.rows && Completed(s.rows[id].status))
    ensures step.Save? && step.call in s.calls && s.calls[step.call].request.Analyze? && s.calls[step.call].request.caseId == id
    ensures s.calls[step.call].phase.AtSave? && s.calls[step.call].phase.analysis.Found?
    ensures id in s.rows && s.rows[id].status == Analyzing
  {
    EveryEffectIsLegal(s, step);
  }

  lemma SavedRowUses(s: State, c: nat, id: nat)
    requires c in s.calls && s.calls[c].request.Analyze? && s.calls[c].request.caseId == id && ReadParameters(s.audits, s.calls[c])
    requires s.calls[c].phase.AtSave? && s.calls[c].phase.analysis.Found? && id in s.rows && s.rows[id].status == Analyzing
    ensures RowParameters(Next(s, Save(c)), id)
  {
    var t, phase := Next(s, Save(c)), s.calls[c].phase;
    var p := CompletionWritesRow(s, c, phase.item, phase.startedAt, phase.analysis.differences);
    CreatedLater(s.audits, t.audits, id, phase.item.parameters);
    CallsKeepRequests(s, Save(c), c);
    assert t.audits[|s.audits|] == Entry(s.calls[c].request.actor, AnalysisCompleted, id, Nothing, Outcome(|phase.analysis.differences|, p));
    assert UsedByAnalysis(t, id, |t.rows[id].differences|, t.rows[id].parameters, c, phase.item.parameters);
  }

  lemma CompletedStaysUsed(s: State, step: Step, id: nat)
    requires id in s.rows && Completed(s.rows[id].status) && RowParameters(s, id)
    ensures RowParameters(Next(s, step), id)
  {
    var c: nat, read: Parameters :| UsedByAnalysis(s, id, |s.rows[id].differences|, s.rows[id].parameters, c, read);
    UsedLater(s, step, id, |s.rows[id].differences|, s.rows[id].parameters, c, read);
    CompletedKeepsResult(s, step, id);
  }

  lemma CompletedKeepsResult(s: State, step: Step, id: nat)
    requires id in s.rows && Completed(s.rows[id].status)
    ensures id in Next(s, step).rows && Completed(Next(s, step).rows[id].status)
    ensures Next(s, step).rows[id].differences == s.rows[id].differences && Next(s, step).rows[id].parameters == s.rows[id].parameters
  {
    EveryEffectIsLegal(s, step);
  }

  lemma DraftStaysCreated(s: State, step: Step, id: nat)
    requires id in s.rows ==> RowParameters(s, id)
    requires id in Next(s, step).rows && !Completed(Next(s, step).rows[id].status)
    ensures CreatedWith(Next(s, step).audits, id, Next(s, step).rows[id].parameters)
  {
    if id in s.rows {
      StepStays(s, step, id);
      StepEvolves(s, step);
      CreatedLater(s.audits, Next(s, step).audits, id, s.rows[id].parameters);
    } else {
      EveryEffectIsLegal(s, step);
      var e := Next(s, step).audits[|s.audits|];
      assert e.caseId == id && e.action == Created && e.after == Record(Next(s, step).rows[id]);
    }
  }

  lemma RowStaysUsed(s: State, step: Step, id: nat)
    requires RowParameters(s, id)
    requires step.Save? && step.call in s.calls ==> ReadParameters(s.audits, s.calls[step.call])
    ensures RowParameters(Next(s, step), id)
  {
    if id in Next(s, step).rows {
      if !Completed(Next(s, step).rows[id].status) {
        DraftStaysCreated(s, step, id);
      } else if id in s.rows && Completed(s.rows[id].status) {
        CompletedStaysUsed(s, step, id);
      } else {
        CompletedBySave(s, step, id);
        SavedRowUses(s, step.call, id);
      }
    }
  }

  ghost predicate ParametersTraced(s: State) {
    && (forall id: nat :: RowParameters(s, id))
    && (forall c: nat :: c in s.calls ==> ReadParameters(s.audits, s.calls[c]))
  }

  lemma StepKeepsTraced(s: State, step: Step)
    requires ParametersTraced(s)
    ensures ParametersTraced(Next(s, step))
  {
    forall id: nat
      ensures RowParameters(Next(s, step), id)
    {
      RowStaysUsed(s, step, id);
    }
    forall c: nat | c in Next(s, step).calls
      ensures ReadParameters(Next(s, step).audits, Next(s, step).calls[c])
    {
      CallStaysRead(s, step, c);
    }
  }

  /**
   In every run the parameters stored in a completed case are those that the request of some
   analysis of it named, or else those of the case's creation, and were logged with its completion;
   a case that is not completed still has the parameters of its creation.
   */
  lemma {:induction false} StoredParametersWereUsed(clock: int, steps: seq<Step>)
    ensures ParametersTraced(Exec(Initial(clock), steps))
  {
    if steps != [] {
      StoredParametersWereUsed(clock, steps[..|steps| - 1]);
      StepKeepsTraced(Exec(Initial(clock), steps[..|steps| - 1]), steps[|steps| - 1]);
    }
  }
}
