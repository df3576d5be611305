/** Who saves an analysis: the lease, the timing it relies on, and the run that breaks it. */
module CaseLeaseLaws {
  import opened Results
  import opened CaseStatus
  import opened CaseRepository
  import opened CaseProtocol
  import opened CaseLaws

  /** A call that has opened an analysis epoch and has not saved yet. */
  ghost predicate Running(s: State, c: nat) {
    && c in s.calls && s.calls[c].request.Analyze?
    && (s.calls[c].phase.AtBaseline? || s.calls[c].phase.AtCurrent? || s.calls[c].phase.AtSave?)
  }

  function CaseOf(s: State, c: nat): nat
    requires c in s.calls
  {
    s.calls[c].request.caseId
  }

  /** The version its own start gave the case. */
  ghost function StartVersion(s: State, c: nat): nat
    requires Running(s, c)
  {
    s.calls[c].phase.item.version
  }

  ghost function StartTime(s: State, c: nat): int
    requires Running(s, c)
  {
    s.calls[c].phase.startedAt
  }

  /** The epoch that c opened is the one now running. */
  ghost predicate EpochCurrent(s: State, c: nat)
    requires Running(s, c)
  {
    var id := CaseOf(s, c);
    id in s.rows && s.rows[id].status == Analyzing && s.rows[id].version == StartVersion(s, c)
  }

  /** A running call's epoch is not newer than the row, and is the current one only if the call owns it. */
  ghost predicate CallFits(s: State, c: nat) {
    Running(s, c) ==>
      var id := CaseOf(s, c);
      && id in s.rows && StartVersion(s, c) <= s.rows[id].version && StartTime(s, c) <= s.clock
      && (EpochCurrent(s, c) ==> id in s.owner && s.owner[id] == c && s.rows[id].updatedAt == StartTime(s, c))
  }

  /** The owner of a case under analysis, if it is still running, opened the current epoch. */
  ghost predicate OwnerFits(s: State, id: nat) {
    id in s.rows && s.rows[id].status == Analyzing ==>
      && id in s.owner && s.owner[id] in s.calls && CaseOf(s, s.owner[id]) == id
      && (Running(s, s.owner[id]) ==> EpochCurrent(s, s.owner[id]))
  }

  /** How a step can touch a running call: it was running with the same epoch, or this is its successful start. */
  lemma RunningStep(s: State, step: Step, c: nat)
    requires Running(Next(s, step), c)
    ensures c in s.calls && CaseOf(Next(s, step), c) == CaseOf(s, c)
    ensures var t := Next(s, step);
            || (Running(s, c) && StartVersion(t, c) == StartVersion(s, c) && StartTime(t, c) == StartTime(s, c))
            || (step == Start(c) && EffectOf(s, step).Write? && EffectOf(s, step).id == CaseOf(s, c)
                && StartVersion(t, c) == EffectOf(s, step).row.version && StartTime(t, c) == s.clock)
  {
  }

  lemma StartWrites(s: State, c: nat)
    requires EffectOf(s, Start(c)).Write?
    ensures var e := EffectOf(s, Start(c));
            && e.id in s.rows && s.rows[e.id].status == Draft && e.row.status == Analyzing && e.row.updatedAt == s.clock
            && Next(s, Start(c)).owner == s.owner[e.id := c]
            && c in s.calls && e.id == CaseOf(s, c)
            && Running(Next(s, Start(c)), c) && StartVersion(Next(s, Start(c)), c) == e.row.version
            && CaseOf(Next(s, Start(c)), c) == e.id
  {
  }

  /** Only a start makes a case analyzing; any other step leaves an analyzing row untouched or ends its epoch. */
  lemma AnalyzingStep(s: State, step: Step, id: nat)
    requires id in Next(s, step).rows && Next(s, step).rows[id].status == Analyzing
    ensures || (id in s.rows && Next(s, step).rows[id] == s.rows[id])
            || (step.Start? && EffectOf(s, step).Write? && EffectOf(s, step).id == id)
  {
    EveryEffectIsLegal(s, step);
    if EffectOf(s, step).Write? {
      WritesKnown(s, step);
    }
  }

  /** Which steps write, and from which status. */
  lemma WritesKnown(s: State, step: Step)
    requires EffectOf(s, step).Write?
    ensures step.Start? || step.Recover? || step.Save? || step.Commit?
    ensures step.Start? <==> EffectOf(s, step).row.status == Analyzing
  {
  }

  lemma CallStaysFit(s: State, step: Step, c: nat)
    requires CallFits(s, c)
    ensures CallFits(Next(s, step), c)
  {
    var t := Next(s, step);
    if Running(t, c) {
      RunningStep(s, step, c);
      StepEvolves(s, step);
      if step.Start? && EffectOf(s, step).Write? {
        StartWrites(s, step.call);
        EveryEffectIsLegal(s, step);
      } else if EpochCurrent(t, c) {
        AnalyzingStep(s, step, CaseOf(t, c));
      }
    }
  }

  lemma OwnerStaysFit(s: State, step: Step, id: nat)
    requires OwnerFits(s, id)
    ensures OwnerFits(Next(s, step), id)
  {
    var t := Next(s, step);
    if id in t.rows && t.rows[id].status == Analyzing {
      AnalyzingStep(s, step, id);
      if step.Start? && EffectOf(s, step).Write? && EffectOf(s, step).id == id {
        StartWrites(s, step.call);
      } else {
        assert id in s.owner && t.owner[id] == s.owner[id];
        if Running(t, t.owner[id]) {
          RunningStep(s, step, t.owner[id]);
        }
      }
    }
  }

  lemma {:induction false} EpochsFit(clock: int, steps: seq<Step>, c: nat, id: nat)
    ensures CallFits(Exec(Initial(clock), steps), c) && OwnerFits(Exec(Initial(clock), steps), id)
  {
    if steps != [] {
      var before, step := Exec(Initial(clock), steps[..|steps| - 1]), steps[|steps| - 1];
      EpochsFit(clock, steps[..|steps| - 1], c, id);
      CallStaysFit(before, step, c);
      OwnerStaysFit(before, step, id);
    }
  }

  ghost predicate SavesAt(s: State, c: nat) { EffectOf(s, Save(c)).Write? }

  /**
   Exactly when a successful save is by the call that opened the current epoch: when the row
   still has the version that call's start gave it.  The save does not check this.
   */
  lemma SaveByOwnerIff(clock: int, steps: seq<Step>, c: nat)
    requires SavesAt(Exec(Initial(clock), steps), c)
    ensures var s := Exec(Initial(clock), steps);
            && Running(s, c) && CaseOf(s, c) in s.owner && CaseOf(s, c) in s.rows
            && (s.owner[CaseOf(s, c)] == c <==> s.rows[CaseOf(s, c)].version == StartVersion(s, c))
  {
    var s := Exec(Initial(clock), steps);
    EpochsFit(clock, steps, c, CaseOf(s, c));
  }

  // ----- the timing assumption -----

  /** The step is not a save that comes more than a lease after its call's start. */
  ghost predicate Timely(s: State, step: Step) {
    step.Save? && SavesAt(s, step.call) && Running(s, step.call) ==> s.clock <= StartTime(s, step.call) + LEASE
  }

  ghost predicate TimelyRun(clock: int, steps: seq<Step>) {
    steps == [] || (TimelyRun(clock, steps[..|steps| - 1]) && Timely(Exec(Initial(clock), steps[..|steps| - 1]), steps[|steps| - 1]))
  }

  /** A call that has lost its epoch has also outlived its lease. */
  ghost predicate LostOnlyWhenLate(s: State, c: nat) {
    Running(s, c) ==> EpochCurrent(s, c) || s.clock > StartTime(s, c) + LEASE
  }

  /** An epoch ends by recovery after the lease, or by a save. */
  lemma EpochEnds(s: State, step: Step, c: nat)
    requires Running(s, c) && EpochCurrent(s, c) && CallFits(s, c)
    requires Next(s, step).rows[CaseOf(s, c)] != s.rows[CaseOf(s, c)]
    ensures (step.Recover? && s.clock > StartTime(s, c) + LEASE) || (step.Save? && SavesAt(s, step.call) && CaseOf(s, step.call) == CaseOf(s, c))
  {
    EveryEffectIsLegal(s, step);
  }

  lemma TimelyStepKeepsLease(s: State, step: Step, c: nat)
    requires LostOnlyWhenLate(s, c) && CallFits(s, c) && Timely(s, step)
    requires step.Save? ==> LostOnlyWhenLate(s, step.call) && CallFits(s, step.call)
    ensures LostOnlyWhenLate(Next(s, step), c)
  {
    var t := Next(s, step);
    if Running(t, c) {
      RunningStep(s, step, c);
      if step == Start(c) && EffectOf(s, step).Write? {
        StartWrites(s, c);
      } else if EpochCurrent(s, c) && t.rows[CaseOf(s, c)] != s.rows[CaseOf(s, c)] {
        EpochEnds(s, step, c);
        if step.Save? {
          TimelySaverOwns(s, step.call);
        }
      }
    }
  }

  lemma TimelySaverOwns(s: State, c: nat)
    requires SavesAt(s, c) && Timely(s, Save(c)) && LostOnlyWhenLate(s, c) && CallFits(s, c)
    ensures Running(s, c) && EpochCurrent(s, c) && s.owner[CaseOf(s, c)] == c
    ensures !Running(Next(s, Save(c)), c)
  {
  }

  lemma {:induction false} TimelyRunKeepsLease(clock: int, steps: seq<Step>, c: nat)
    requires TimelyRun(clock, steps)
    ensures LostOnlyWhenLate(Exec(Initial(clock), steps), c)
  {
    if steps != [] {
      var init, step := steps[..|steps| - 1], steps[|steps| - 1];
      var before := Exec(Initial(clock), init);
      TimelyRunKeepsLease(clock, init, c);
      EpochsFit(clock, init, c, 0);
      if step.Save? {
        TimelyRunKeepsLease(clock, init, step.call);
        EpochsFit(clock, init, step.call, 0);
      }
      TimelyStepKeepsLease(before, step, c);
    }
  }

  /**
   If in a run no call saves more than a lease after its start, then every successful save is by
   the call that opened the epoch it ends.
   */
  lemma TimelySavesAreByOwner(clock: int, steps: seq<Step>, c: nat)
    requires TimelyRun(clock, steps + [Save(c)]) && SavesAt(Exec(Initial(clock), steps), c)
    ensures var s := Exec(Initial(clock), steps);
            && Running(s, c) && EpochCurrent(s, c)
            && CaseOf(s, c) in s.owner && s.owner[CaseOf(s, c)] == c
            && s.rows[CaseOf(s, c)].updatedAt == StartTime(s, c)
  {
    assert (steps + [Save(c)])[..|steps|] == steps;
    TimelyRunKeepsLease(clock, steps, c);
    EpochsFit(clock, steps, c, 0);
    TimelySaverOwns(Exec(Initial(clock), steps), c);
  }

  /** A recovery never takes a case from a call whose lease has not run out. */
  lemma RecoveryRespectsLease(clock: int, steps: seq<Step>, c: nat, other: nat)
    requires var s := Exec(Initial(clock), steps);
             Running(s, c) && EpochCurrent(s, c) && EffectOf(s, Recover(other)).Write? && EffectOf(s, Recover(other)).id == CaseOf(s, c)
    ensures var s := Exec(Initial(clock), steps); s.clock > StartTime(s, c) + LEASE
  {
    EpochsFit(clock, steps, c, 0);
  }
}
