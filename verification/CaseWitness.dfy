/** Runs showing that the conditions of CaseLeaseLaws and CaseReviewLaws are needed. */
module CaseWitness {
  import opened Results
  import opened Reals
  import opened CaseStatus
  import opened Compare
  import opened CaseRepository
  import opened CaseProtocol
  import opened CaseLeaseLaws
  import opened CaseReviewLaws

  const ID := 7

  const CREATE: Step := Create(ID, 1, 1, 2, 0.0, 0.0, 9, true)
  const ANALYZE: Request := Analyze(ID, 0.0, 0.0, 9)
  const CONFIRM: Request := Confirm(ID, 3, "splice loss", 50.0, 5.0, 8, Reviewer)
  const BASELINE: ComparableEvent := ComparableEvent(1, 100.0, 0.2, 0.9)
  const CURRENT: ComparableEvent := ComparableEvent(2, 100.0, 0.2, 0.9)

  /** The same event at the same place: the comparison finds nothing. */
  lemma NothingFound()
    ensures SortedPermutation([], Unsorted([BASELINE], [CURRENT], DEFAULT_TOLERANCE, DEFAULT_LOSS))
  {
    var baseline, current := [BASELINE], [CURRENT];
    assert NearestUpTo(BASELINE, current, {}, DEFAULT_TOLERANCE, 0) == -1;
    assert NearestUpTo(BASELINE, current, {}, DEFAULT_TOLERANCE, 1) == 0;
    assert MatchesUpTo(baseline, current, DEFAULT_TOLERANCE, 0) == [] && UsedBy([]) == {};
    assert MatchesUpTo(baseline, current, DEFAULT_TOLERANCE, 1) == [0];
    var parts := Contributions(baseline, current, [0], DEFAULT_LOSS);
    assert parts == [[]] && parts[..0] == [];
    assert Flatten(parts) == [];
    assert NewUpTo(current, UsedBy([0]), 0) == [] && NewUpTo(current, UsedBy([0]), 1) == [];
  }

  // ----- single steps from any reached state -----

  ghost predicate Reached(s: State) { Reaches(Initial(0), s) }

  lemma ReachNext(s: State, step: Step)
    requires Reached(s)
    ensures Reached(Next(s, step))
  {
    ReachesNext(Initial(0), s, step);
  }

  ghost predicate In(s: State, c: nat, request: Request, phase: Phase) {
    c in s.calls && s.calls[c] == Call(request, phase)
  }

  ghost predicate Holds(s: State, row: Case) { ID in s.rows && s.rows[ID] == row }

  function StartedRow(row: Case, clock: int): Case { Updated(row, Analyzing, NO_UPDATES.(analysisError := Some("")), clock) }

  function RecoveredRow(row: Case, clock: int): Case { Updated(row, Draft, RecoveryUpdates(), clock) }

  function CompletedRow(row: Case, clock: int): Case {
    Updated(row, PendingReview, SaveUpdates(Found([]), Parameters(DEFAULT_TOLERANCE, DEFAULT_LOSS)), clock)
  }

  lemma CaseCreated() returns (s: State)
    ensures Reached(s) && s.clock == 0 && s.calls == map[] && Holds(s, NewCase(CREATE, 0))
  {
    ReachesItself(Initial(0));
    ReachNext(Initial(0), CREATE);
    s := Next(Initial(0), CREATE);
  }

  lemma LeasePassed(s: State) returns (t: State)
    requires Reached(s)
    ensures Reached(t) && t == s.(clock := s.clock + LEASE + 1)
  {
    ReachNext(s, Tick(LEASE + 1));
    t := Next(s, Tick(LEASE + 1));
  }

  lemma Invoked(s: State, c: nat, request: Request) returns (t: State)
    requires Reached(s) && c !in s.calls
    ensures Reached(t) && t == s.(calls := s.calls[c := Call(request, Begun)])
  {
    ReachNext(s, Invoke(c, request));
    t := Next(s, Invoke(c, request));
  }

  lemma RowRead(s: State, c: nat, request: Request, phase: Phase) returns (t: State)
    requires Reached(s) && In(s, c, request, phase) && (phase.Begun? || phase.AtReload?)
    ensures Reached(t) && t == s.(calls := s.calls[c := Call(request, AfterRead(Call(request, phase), s.rows, s.clock))])
  {
    ReachNext(s, Read(c));
    t := Next(s, Read(c));
  }

  lemma EpochStarted(s: State, c: nat, row: Case) returns (t: State)
    requires Reached(s) && In(s, c, ANALYZE, AtStart(row)) && Holds(s, row) && row.status == Draft
    ensures Reached(t) && t.clock == s.clock && Holds(t, StartedRow(row, s.clock)) && t.owner == s.owner[ID := c]
    ensures t.calls == s.calls[c := Call(ANALYZE, AtBaseline(Started(row), s.clock))]
  {
    ReachNext(s, Start(c));
    t := Next(s, Start(c));
  }

  lemma EpochRecovered(s: State, c: nat, row: Case) returns (t: State)
    requires Reached(s) && In(s, c, ANALYZE, AtRecovery(row)) && Holds(s, row) && row.status == Analyzing
    requires row.updatedAt < s.clock - LEASE
    ensures Reached(t) && t.clock == s.clock && Holds(t, RecoveredRow(row, s.clock)) && t.owner == s.owner
    ensures t.calls == s.calls[c := Call(ANALYZE, AtReload)]
  {
    ReachNext(s, Recover(c));
    t := Next(s, Recover(c));
  }

  lemma BaselineLoaded(s: State, c: nat, item: Case, startedAt: int) returns (t: State)
    requires Reached(s) && In(s, c, ANALYZE, AtBaseline(item, startedAt))
    ensures Reached(t) && t == s.(calls := s.calls[c := Call(ANALYZE, AtCurrent(item, startedAt, [BASELINE]))])
  {
    ReachNext(s, LoadBaseline(c, [BASELINE]));
    t := Next(s, LoadBaseline(c, [BASELINE]));
  }

  lemma CurrentLoaded(s: State, c: nat, item: Case, startedAt: int) returns (t: State)
    requires Reached(s) && In(s, c, ANALYZE, AtCurrent(item, startedAt, [BASELINE]))
    requires item.parameters == Parameters(DEFAULT_TOLERANCE, DEFAULT_LOSS)
    ensures Reached(t) && t == s.(calls := s.calls[c := Call(ANALYZE, AtSave(item, startedAt, Found([])))])
  {
    NothingFound();
    ReachNext(s, LoadCurrent(c, [CURRENT], []));
    t := Next(s, LoadCurrent(c, [CURRENT], []));
  }

  lemma Saving(s: State, c: nat, item: Case, startedAt: int, row: Case) returns (t: State)
    requires Reached(s) && In(s, c, ANALYZE, AtSave(item, startedAt, Found([]))) && Holds(s, row) && row.status == Analyzing
    requires item.parameters == Parameters(DEFAULT_TOLERANCE, DEFAULT_LOSS)
    ensures EffectOf(s, Save(c)).Write? && EffectOf(s, Save(c)).id == ID && EffectOf(s, Save(c)).row == CompletedRow(row, s.clock)
    ensures Reached(t) && Holds(t, CompletedRow(row, s.clock)) && t.calls == s.calls[c := Call(ANALYZE, Finished)]
  {
    ReachNext(s, Save(c));
    t := Next(s, Save(c));
  }

  // ----- stretches of a run -----

  lemma EpochOpened(s0: State, c: nat, phase: Phase, row: Case) returns (s: State)
    requires Reached(s0) && In(s0, c, ANALYZE, phase) && (phase.Begun? || phase.AtReload?) && Holds(s0, row) && row.status == Draft
    ensures Reached(s) && s.clock == s0.clock && Holds(s, StartedRow(row, s0.clock)) && s.owner == s0.owner[ID := c]
    ensures s.calls == s0.calls[c := Call(ANALYZE, AtBaseline(Started(row), s0.clock))]
  {
    DraftIsStartable(Call(ANALYZE, phase), s0.rows, s0.clock, row);
    s := RowRead(s0, c, ANALYZE, phase);
    s := EpochStarted(s, c, row);
  }

  lemma DraftIsStartable(call: Call, rows: map<nat, Case>, clock: int, row: Case)
    requires call.request == ANALYZE && ID in rows && rows[ID] == row && row.status == Draft
    ensures AfterRead(call, rows, clock) == AtStart(row)
  {
  }

  lemma EpochTakenOver(s0: State, c: nat, row: Case) returns (s: State)
    requires Reached(s0) && c !in s0.calls && Holds(s0, row) && row.status == Analyzing && row.updatedAt == s0.clock
    ensures Reached(s) && s.clock == s0.clock + LEASE + 1 && Holds(s, RecoveredRow(row, s.clock)) && s.owner == s0.owner
    ensures s.calls == s0.calls[c := Call(ANALYZE, AtReload)]
  {
    s := LeasePassed(s0);
    s := Invoked(s, c, ANALYZE);
    s := RowRead(s, c, ANALYZE, Begun);
    s := EpochRecovered(s, c, row);
  }

  lemma Analyzed(s0: State, c: nat, item: Case, startedAt: int) returns (s: State)
    requires Reached(s0) && In(s0, c, ANALYZE, AtBaseline(item, startedAt))
    requires item.parameters == Parameters(DEFAULT_TOLERANCE, DEFAULT_LOSS)
    ensures Reached(s) && s == s0.(calls := s0.calls[c := Call(ANALYZE, AtSave(item, startedAt, Found([])))])
  {
    s := BaselineLoaded(s0, c, item, startedAt);
    s := CurrentLoaded(s, c, item, startedAt);
  }

  // ----- the lease needs timing -----

  /** Call 1's save succeeds and completes the epoch that call 2 opened and is still working on. */
  ghost predicate SavesForeignEpoch(s: State) {
    && SavesAt(s, 1) && Running(s, 1) && Running(s, 2) && EpochCurrent(s, 2)
    && ID in s.owner && s.owner[ID] == 2
    && EffectOf(s, Save(1)).id == ID && EffectOf(s, Save(1)).row.status == PendingReview
  }

  /** The first call sleeps past its lease; a second one recovers the case and starts anew. */
  lemma SecondEpoch() returns (s: State, again: Case)
    ensures Reached(s) && In(s, 1, ANALYZE, AtBaseline(Started(NewCase(CREATE, 0)), 0))
    ensures In(s, 2, ANALYZE, AtBaseline(Started(again), s.clock)) && Holds(s, StartedRow(again, s.clock))
    ensures ID in s.owner && s.owner[ID] == 2
  {
    var row := NewCase(CREATE, 0);
    var s0 := CaseCreated();
    var b1 := Invoked(s0, 1, ANALYZE);
    var s1 := EpochOpened(b1, 1, Begun, row);
    var s2 := EpochTakenOver(s1, 2, StartedRow(row, 0));
    again := RecoveredRow(StartedRow(row, 0), s2.clock);
    s := EpochOpened(s2, 2, AtReload, again);
  }

  lemma SaveIsForeign(s: State, item: Case, again: Case, startedAt: int)
    requires In(s, 1, ANALYZE, AtSave(item, 0, Found([]))) && In(s, 2, ANALYZE, AtBaseline(Started(again), startedAt))
    requires Holds(s, StartedRow(again, startedAt)) && ID in s.owner && s.owner[ID] == 2
    ensures SavesForeignEpoch(s)
  {
  }

  /**
   Without the timing assumption a save can end an epoch that another call opened: the first
   call sleeps past its lease, a second one recovers the case and starts anew, and the first
   one's save completes the second one's analysis.
   */
  lemma LateSaveCompletesNewerEpoch()
    ensures exists s: State :: Reached(s) && SavesForeignEpoch(s)
  {
    var s0, again := SecondEpoch();
    var item := Started(NewCase(CREATE, 0));
    var s := Analyzed(s0, 1, item, 0);
    SaveIsForeign(s, item, again, s0.clock);
  }

  // ----- a version nobody has seen -----

  /** The confirmation succeeds, but what it will audit as the before-value is an older record. */
  ghost predicate ConfirmsUnseen(s: State, older: Case) {
    SucceedsAt(s, 3) && ID in s.rows && EffectOf(s, Commit(3)).entry.before == Record(older) && s.rows[ID] != older
  }

  lemma DraftRead(s0: State, row: Case) returns (s: State)
    requires Reached(s0) && 3 !in s0.calls && Holds(s0, row) && row.status == Draft
    ensures Reached(s) && s == s0.(calls := s0.calls[3 := Call(CONFIRM, AtCommit(row, s0.clock))])
  {
    s := Invoked(s0, 3, CONFIRM);
    s := RowRead(s, 3, CONFIRM, Begun);
  }

  /**
   The condition of ObservedVersionAuditsReplaced is needed: a Confirm that names a version the
   case has yet to reach can read a draft, wait for that version, succeed, and audit the draft.
   */
  lemma UnseenVersionAuditsOlderRecord()
    ensures exists s: State, older: Case :: Reached(s) && ConfirmsUnseen(s, older)
  {
    var row1 := NewCase(CREATE, 0);
    var s0 := CaseCreated();
    var s1 := DraftRead(s0, row1);
    var b1 := Invoked(s1, 1, ANALYZE);
    var s2 := EpochOpened(b1, 1, Begun, row1);
    var s3 := Analyzed(s2, 1, Started(row1), 0);
    var row2 := StartedRow(row1, 0);
    var s := Saving(s3, 1, Started(row1), 0, row2);
    ConfirmWaits(s, row1, CompletedRow(row2, 0));
  }

  lemma ConfirmWaits(s: State, older: Case, row: Case)
    requires In(s, 3, CONFIRM, AtCommit(older, 0)) && Holds(s, row)
    requires row.status == PendingReview && row.version == 3 && older.status == Draft
    ensures ConfirmsUnseen(s, older)
  {
  }
}
