/** Confirm and Close: what they change and what they audit. */
module CaseReviewLaws {
  import opened Results
  import opened CaseStatus
  import opened CaseRepository
  import opened CaseProtocol
  import opened CaseLaws

  /** The row a call read and has not touched since. */
  ghost predicate HoldsCopy(phase: Phase) { phase.AtRecovery? || phase.AtStart? || phase.AtCommit? }

  /** A local copy is the stored row, or of a version that the row has left. */
  ghost predicate CopyFaithful(s: State, c: nat) {
    c in s.calls && HoldsCopy(s.calls[c].phase) ==>
      var id, item := s.calls[c].request.caseId, s.calls[c].phase.item;
      && id in s.rows && item.version <= s.rows[id].version
      && (item.version == s.rows[id].version ==> item == s.rows[id])
  }

  /** A call's request never changes, and a step leaves it holding the copy it had, or the row it has just read. */
  lemma CopyStep(s: State, step: Step, c: nat)
    requires c in s.calls
    ensures var t := Next(s, step);
            && c in t.calls && t.calls[c].request == s.calls[c].request
            && (HoldsCopy(t.calls[c].phase) ==>
                  || t.calls[c].phase == s.calls[c].phase
                  || (step == Read(c) && s.calls[c].request.caseId in s.rows && t.calls[c].phase.item == s.rows[s.calls[c].request.caseId]))
  {
  }

  lemma StepKeepsCopies(s: State, step: Step, c: nat)
    requires CopyFaithful(s, c)
    ensures CopyFaithful(Next(s, step), c)
  {
    StepEvolves(s, step);
    if c in s.calls {
      CopyStep(s, step, c);
    }
  }

  lemma {:induction false} CopiesFaithful(clock: int, steps: seq<Step>, c: nat)
    ensures CopyFaithful(Exec(Initial(clock), steps), c)
  {
    if steps != [] {
      CopiesFaithful(clock, steps[..|steps| - 1], c);
      StepKeepsCopies(Exec(Initial(clock), steps[..|steps| - 1]), steps[|steps| - 1], c);
    }
  }

  ghost predicate SucceedsAt(s: State, c: nat) { EffectOf(s, Commit(c)).Write? }

  /**
   A Confirm or Close that succeeds changes its own case and no other, from the version its
   request names, and appends one audit entry; the audited before-value is the record it replaced
   if and only if the copy it read was of that version.
   */
  lemma CommitAuditsReplacedIff(clock: int, steps: seq<Step>, c: nat)
    requires SucceedsAt(Exec(Initial(clock), steps), c)
    ensures var s := Exec(Initial(clock), steps);
            var t, call := Next(s, Commit(c)), s.calls[c];
            var id := call.request.caseId;
            && c in s.calls && !call.request.Analyze? && call.phase.AtCommit?
            && id in s.rows && s.rows[id].version == call.request.version
            && t.rows == s.rows[id := t.rows[id]] && t.rows[id].version == call.request.version + 1
            && t.audits == s.audits + [t.audits[|s.audits|]]
            && t.audits[|s.audits|].before == Record(call.phase.item)
            && (call.phase.item == s.rows[id] <==> call.phase.item.version == call.request.version)
  {
    CopiesFaithful(clock, steps, c);
  }

  /** The version a request names had existed when the client sent it. */
  ghost predicate Observed(s: State, c: nat) {
    && c in s.calls && !s.calls[c].request.Analyze?
    && var r, phase := s.calls[c].request, s.calls[c].phase;
       && (phase.Begun? ==> r.caseId in s.rows && r.version <= s.rows[r.caseId].version)
       && (phase.AtCommit? ==> r.version <= phase.item.version)
       && !phase.AtReload?
  }

  lemma StepKeepsObserved(s: State, step: Step, c: nat)
    requires Observed(s, c)
    ensures Observed(Next(s, step), c)
  {
    StepEvolves(s, step);
    CopyStep(s, step, c);
    PhasesOfReview(s, step, c);
  }

  /** A reviewing call goes from Begun to AtCommit by its own read, and is never Begun again. */
  lemma PhasesOfReview(s: State, step: Step, c: nat)
    requires c in s.calls && !s.calls[c].request.Analyze?
    ensures var was, now := s.calls[c].phase, Next(s, step).calls[c].phase;
            && (now.Begun? ==> was.Begun?)
            && (now.AtCommit? ==> was == now || was.Begun? || was.AtReload?)
            && (now.AtReload? ==> was.AtReload?)
  {
  }

  lemma {:induction false} ObservedStays(s: State, steps: seq<Step>, c: nat)
    requires Observed(s, c)
    ensures Observed(Exec(s, steps), c)
  {
    if steps != [] {
      ObservedStays(s, steps[..|steps| - 1], c);
      StepKeepsObserved(Exec(s, steps[..|steps| - 1]), steps[|steps| - 1], c);
    }
  }

  /**
   A Confirm or Close sent with a version that the case had reached by then audits exactly the
   record it replaces, whatever else happens between its read and its transaction.
   */
  lemma ObservedVersionAuditsReplaced(clock: int, before: seq<Step>, after: seq<Step>, c: nat)
    requires Observed(Exec(Initial(clock), before), c)
    requires SucceedsAt(Exec(Initial(clock), before + after), c)
    ensures var s := Exec(Initial(clock), before + after);
            var id := s.calls[c].request.caseId;
            && c in s.calls && id in s.rows
            && Next(s, Commit(c)).audits == s.audits + [Next(s, Commit(c)).audits[|s.audits|]]
            && Next(s, Commit(c)).audits[|s.audits|].before == Record(s.rows[id])
  {
    ExecConcat(Initial(clock), before, after);
    ObservedStays(Exec(Initial(clock), before), after, c);
    CommitAuditsReplacedIff(clock, before + after, c);
    CopiesFaithful(clock, before + after, c);
  }
}
