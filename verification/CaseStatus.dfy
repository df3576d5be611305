/** constants/case.go: the states of a localization case and the moves between them. */
module CaseStatus {
  datatype Status = Draft | Analyzing | PendingReview | Confirmed | Closed

  datatype Role = Analyst | Reviewer | Admin

  const TRANSITIONS: map<Status, set<Status>> := map[
    Draft := {Analyzing},
    Analyzing := {Draft, PendingReview},
    PendingReview := {Confirmed},
    Confirmed := {Closed},
    Closed := {}
  ]

  predicate CanTransition(from: Status, to: Status) {
    from in TRANSITIONS && to in TRANSITIONS[from]
  }
}
