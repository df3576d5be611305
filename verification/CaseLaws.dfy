/** What holds in every run of the case protocol, however the calls interleave. */
module CaseLaws {
  import opened Results
  import opened CaseStatus
  import opened Compare
  import opened CaseRepository
  import opened CaseProtocol

  // ----- every stored change is one of six legal writes -----

  /** The estimate is the primary difference of the stored differences, unset exactly when there is none. */
  ghost predicate EstimateMatches(item: Case) {
    match Primary(item.differences)
    case None => item.estimate.None? && item.uncertainty.None?
    case Some(e) => item.estimate == Some(e.distance) && item.uncertainty == Some(e.uncertainty)
  }

  /** No analysis result is stored. */
  ghost predicate NoResult(item: Case) {
    item.differences == [] && item.estimate.None? && item.uncertainty.None?
  }

  ghost predicate SameResult(a: Case, b: Case) {
    a.differences == b.differences && a.estimate == b.estimate && a.uncertainty == b.uncertainty
  }

  ghost predicate LegalWrite(was: Case, now: Case, action: Action, clock: int) {
    && now.version == was.version + 1 && now.updatedAt == clock
    && (now.routeId, now.baselineTraceId, now.currentTraceId, now.createdBy)
       == (was.routeId, was.baselineTraceId, was.currentTraceId, was.createdBy)
    && CanTransition(was.status, now.status)
    && match action
       case Created => false
       case AnalysisStarted => was.status == Draft && now.status == Analyzing && SameResult(was, now)
       case AnalysisRecovered => was.status == Analyzing && now.status == Draft && SameResult(was, now)
       case AnalysisFailed => was.status == Analyzing && now.status == Draft && SameResult(was, now)
       case AnalysisCompleted => was.status == Analyzing && now.status == PendingReview && (NoResult(was) ==> EstimateMatches(now))
       case CaseConfirmed => was.status == PendingReview && now.status == Confirmed
       case CaseClosed => was.status == Confirmed && now.status == Closed
  }

  ghost predicate LegalInsert(row: Case, clock: int) {
    row.status == Draft && row.version == 1 && NoResult(row) && row.updatedAt == clock
  }

  ghost predicate LegalEffect(rows: map<nat, Case>, e: Effect, clock: int) {
    match e
    case Keep => true
    case Insert(id, row, entry) => id !in rows && entry.caseId == id && entry.action == Created && LegalInsert(row, clock)
    case Write(id, row, entry) => id in rows && entry.caseId == id && LegalWrite(rows[id], row, entry.action, clock)
  }

  lemma EveryEffectIsLegal(s: State, step: Step)
    ensures LegalEffect(s.rows, EffectOf(s, step), s.clock)
  {
    match step
    case Save(c) => if InPhase(s, c, step) { SaveIsLegal(s, s.calls[c]); }
    case Commit(c) => if InPhase(s, c, step) { CommitIsLegal(s, s.calls[c]); }
    case _ =>
  }

  lemma SaveIsLegal(s: State, call: Call)
    requires call.request.Analyze? && call.phase.AtSave?
    ensures LegalEffect(s.rows, SaveEffect(s, call), s.clock)
  {
  }

  lemma CommitIsLegal(s: State, call: Call)
    requires !call.request.Analyze? && call.phase.AtCommit?
    ensures LegalEffect(s.rows, CommitEffect(s, call), s.clock)
  {
  }

  // ----- the audit log determines the state -----

  /** The actions recorded about one case, oldest first. */
  function Actions(audits: seq<Entry>, id: nat): seq<Action> {
    if audits == [] then []
    else if audits[0].caseId == id then [audits[0].action] + Actions(audits[1..], id)
    else Actions(audits[1..], id)
  }

  lemma {:induction false} ActionsAppend(audits: seq<Entry>, entry: Entry, id: nat)
    ensures Actions(audits + [entry], id)
            == if entry.caseId == id then Actions(audits, id) + [entry.action] else Actions(audits, id)
  {
    var longer := audits + [entry];
    if audits == [] {
      assert longer == [entry] && longer[1..] == [];
    } else {
      assert longer[1..] == audits[1..] + [entry];
      ActionsAppend(audits[1..], entry, id);
    }
  }

  /** What a log says about its case. */
  datatype Folded = Absent | At(status: Status) | Illegal

  function Follow(f: Folded, action: Action): Folded {
    match (f, action)
    case (Absent, Created) => At(Draft)
    case (At(Draft), AnalysisStarted) => At(Analyzing)
    case (At(Analyzing), AnalysisRecovered) => At(Draft)
    case (At(Analyzing), AnalysisFailed) => At(Draft)
    case (At(Analyzing), AnalysisCompleted) => At(PendingReview)
    case (At(PendingReview), CaseConfirmed) => At(Confirmed)
    case (At(Confirmed), CaseClosed) => At(Closed)
    case _ => Illegal
  }

  function Fold(actions: seq<Action>): Folded {
    if actions == [] then Absent else Follow(Fold(actions[..|actions| - 1]), actions[|actions| - 1])
  }

  /** The stored row of a case and its log agree: status by folding, version by counting. */
  ghost predicate Agrees(rows: map<nat, Case>, audits: seq<Entry>, id: nat) {
    if id in rows
    then Fold(Actions(audits, id)) == At(rows[id].status) && |Actions(audits, id)| == rows[id].version
    else Actions(audits, id) == []
  }

  lemma FoldAppend(actions: seq<Action>, action: Action)
    ensures Fold(actions + [action]) == Follow(Fold(actions), action)
  {
    assert (actions + [action])[..|actions|] == actions;
  }

  lemma EffectKeepsAgreement(rows: map<nat, Case>, audits: seq<Entry>, e: Effect, clock: int, id: nat)
    requires Agrees(rows, audits, id) && LegalEffect(rows, e, clock)
    ensures Agrees(RowsAfter(rows, e), AuditsAfter(audits, e), id)
  {
    if !e.Keep? {
      ActionsAppend(audits, e.entry, id);
      if e.id == id {
        FoldAppend(Actions(audits, id), e.entry.action);
      }
    }
  }

  /**
   In every reachable state a case's version is its number of audit entries, and folding their
   actions gives its status.
   */
  lemma {:induction false} LogDeterminesState(clock: int, steps: seq<Step>, id: nat)
    ensures var s := Exec(Initial(clock), steps); Agrees(s.rows, s.audits, id)
  {
    if steps != [] {
      var before, step := Exec(Initial(clock), steps[..|steps| - 1]), steps[|steps| - 1];
      LogDeterminesState(clock, steps[..|steps| - 1], id);
      EveryEffectIsLegal(before, step);
      EffectKeepsAgreement(before.rows, before.audits, EffectOf(before, step), before.clock, id);
    }
  }

  lemma {:induction false} FoldPrefix(actions: seq<Action>, n: nat)
    requires Fold(actions).At? && 0 < n <= |actions|
    ensures Fold(actions[..n]).At?
  {
    if n < |actions| {
      FoldPrefix(actions[..|actions| - 1], n);
      assert actions[..|actions| - 1][..n] == actions[..n];
    } else {
      assert actions[..n] == actions;
    }
  }

  /** Each two consecutive statuses of a log obey CanTransition, and nothing follows closing. */
  lemma LogObeysTransitions(actions: seq<Action>, n: nat)
    requires Fold(actions).At? && 0 < n < |actions|
    ensures Fold(actions[..n]).At? && Fold(actions[..n + 1]).At?
    ensures CanTransition(Fold(actions[..n]).status, Fold(actions[..n + 1]).status)
    ensures Fold(actions[..n]).status != Closed
  {
    FoldPrefix(actions, n);
    FoldPrefix(actions, n + 1);
    assert actions[..n + 1][..n] == actions[..n];
  }

  // ----- accounting of analyses -----

  function CountOf(actions: seq<Action>, action: Action): nat {
    if actions == [] then 0
    else CountOf(actions[..|actions| - 1], action) + if actions[|actions| - 1] == action then 1 else 0
  }

  predicate Completed(status: Status) { status in {PendingReview, Confirmed, Closed} }

  /**
   Every analysis start is accounted for by a completion, a failure, a recovery or the analysis
   now running; a case completes analysis at most once, and then stays completed.
   */
  lemma {:induction false} AnalysesAddUp(actions: seq<Action>)
    requires Fold(actions).At?
    ensures CountOf(actions, AnalysisStarted)
            == CountOf(actions, AnalysisCompleted) + CountOf(actions, AnalysisFailed) + CountOf(actions, AnalysisRecovered)
               + if Fold(actions).status == Analyzing then 1 else 0
    ensures CountOf(actions, AnalysisCompleted) == if Completed(Fold(actions).status) then 1 else 0
  {
    if |actions| > 1 {
      FoldPrefix(actions, |actions| - 1);
      AnalysesAddUp(actions[..|actions| - 1]);
    } else {
      assert actions == [actions[0]];
      assert actions[..0] == [];
    }
  }

  lemma AnalysesAddUpInEveryRun(clock: int, steps: seq<Step>, id: nat)
    requires id in Exec(Initial(clock), steps).rows
    ensures var s := Exec(Initial(clock), steps);
            var actions := Actions(s.audits, id);
            && CountOf(actions, AnalysisStarted)
               == CountOf(actions, AnalysisCompleted) + CountOf(actions, AnalysisFailed) + CountOf(actions, AnalysisRecovered)
                  + (if s.rows[id].status == Analyzing then 1 else 0)
            && CountOf(actions, AnalysisCompleted) == (if Completed(s.rows[id].status) then 1 else 0)
  {
    LogDeterminesState(clock, steps, id);
    AnalysesAddUp(Actions(Exec(Initial(clock), steps).audits, id));
  }

  // ----- analysis results are never stale or torn -----

  ghost predicate ResultFits(item: Case) {
    && (item.status == Draft || item.status == Analyzing ==> NoResult(item))
    && (item.status == PendingReview ==> EstimateMatches(item))
  }

  lemma EffectKeepsResults(rows: map<nat, Case>, e: Effect, clock: int, id: nat)
    requires LegalEffect(rows, e, clock) && (id in rows ==> ResultFits(rows[id]))
    ensures id in RowsAfter(rows, e) ==> ResultFits(RowsAfter(rows, e)[id])
  {
  }

  /**
   A draft or running case holds no result; a case pending review holds exactly the primary
   difference of its stored differences, although the save skips the fields when there is none.
   */
  lemma {:induction false} ResultsNeverStaleOrTorn(clock: int, steps: seq<Step>, id: nat)
    ensures var s := Exec(Initial(clock), steps); id in s.rows ==> ResultFits(s.rows[id])
  {
    if steps != [] {
      var before, step := Exec(Initial(clock), steps[..|steps| - 1]), steps[|steps| - 1];
      ResultsNeverStaleOrTorn(clock, steps[..|steps| - 1], id);
      EveryEffectIsLegal(before, step);
      EffectKeepsResults(before.rows, EffectOf(before, step), before.clock, id);
    }
  }

  // ----- version identifies content -----

  /** What any number of steps may do to what is stored: rows only gain versions, the log only grows. */
  ghost predicate Evolves(s: State, t: State) {
    && s.clock <= t.clock
    && s.audits <= t.audits
    && forall id :: id in s.rows ==>
         && id in t.rows && s.rows[id].version <= t.rows[id].version
         && (s.rows[id].version == t.rows[id].version ==> s.rows[id] == t.rows[id])
         && (s.rows[id].status == Closed ==> s.rows[id] == t.rows[id])
  }

  lemma StepEvolves(s: State, step: Step)
    ensures Evolves(s, Next(s, step))
  {
    EveryEffectIsLegal(s, step);
  }

  /**
   Two reads of a case, at any two moments of any run, that see the same version see the same
   record; a closed case never changes again; the audit log is only appended to.
   */
  lemma {:induction false} VersionIdentifiesContent(s: State, steps: seq<Step>)
    ensures Evolves(s, Exec(s, steps))
  {
    if steps != [] {
      VersionIdentifiesContent(s, steps[..|steps| - 1]);
      StepEvolves(Exec(s, steps[..|steps| - 1]), steps[|steps| - 1]);
    }
  }

  lemma ReachesEvolves(s: State, t: State)
    requires Reaches(s, t)
    ensures Evolves(s, t)
  {
    var steps: seq<Step> :| Exec(s, steps) == t;
    VersionIdentifiesContent(s, steps);
  }

  /** A step that writes a case leaves its version for good, so at most one step ever leaves a given version. */
  lemma {:induction false} VersionLeftForGood(s: State, step: Step, later: seq<Step>)
    requires EffectOf(s, step).Write?
    ensures var id := EffectOf(s, step).id;
            && id in s.rows && id in Exec(Next(s, step), later).rows
            && s.rows[id].version < Exec(Next(s, step), later).rows[id].version
  {
    EveryEffectIsLegal(s, step);
    VersionIdentifiesContent(Next(s, step), later);
  }
}
