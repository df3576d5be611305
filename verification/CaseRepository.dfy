/** model/localization_case.go and repository/case_repository.go: the case rows and their conditional updates. */
module CaseRepository {
  import opened Results
  import opened CaseStatus
  import opened Compare

  datatype Parameters = Parameters(tolerance: real, lossIncrease: real)

  datatype Case = Case(
    routeId: nat,
    baselineTraceId: nat,
    currentTraceId: nat,
    status: Status,
    estimate: Option<real>,
    uncertainty: Option<real>,
    conclusion: string,
    reviewerId: Option<nat>,
    closedAt: Option<int>,
    analysisError: string,
    parameters: Parameters,
    differences: seq<Difference>,
    version: nat,
    createdBy: nat,
    updatedAt: int)

  /** The updates map of the source: a column that is absent keeps its value. */
  datatype Updates = Updates(
    estimate: Option<real>,
    uncertainty: Option<real>,
    conclusion: Option<string>,
    reviewerId: Option<nat>,
    closedAt: Option<int>,
    analysisError: Option<string>,
    parameters: Option<Parameters>,
    differences: Option<seq<Difference>>)

  const NO_UPDATES := Updates(None, None, None, None, None, None, None, None)

  const EXPIRED_MESSAGE := "previous analysis worker expired; please retry"

  /** analysisLeaseTimeout, in seconds. */
  const LEASE := 600

  function Written<T>(update: Option<T>, value: T): T {
    match update
    case None => value
    case Some(v) => v
  }

  /** The row after an UPDATE that also sets the status and bumps version and updated_at. */
  function Updated(item: Case, status: Status, updates: Updates, now: int): Case {
    item.(
      status := status,
      estimate := if updates.estimate.Some? then updates.estimate else item.estimate,
      uncertainty := if updates.uncertainty.Some? then updates.uncertainty else item.uncertainty,
      conclusion := Written(updates.conclusion, item.conclusion),
      reviewerId := if updates.reviewerId.Some? then updates.reviewerId else item.reviewerId,
      closedAt := if updates.closedAt.Some? then updates.closedAt else item.closedAt,
      analysisError := Written(updates.analysisError, item.analysisError),
      parameters := Written(updates.parameters, item.parameters),
      differences := Written(updates.differences, item.differences),
      version := item.version + 1,
      updatedAt := now)
  }

  function RecoveryUpdates(): Updates { NO_UPDATES.(analysisError := Some(EXPIRED_MESSAGE)) }

  /** The WHERE clauses of the three conditional updates. */
  predicate Transitionable(rows: map<nat, Case>, id: nat, version: nat, from: Status) {
    id in rows && rows[id].version == version && rows[id].status == from
  }

  predicate Savable(rows: map<nat, Case>, id: nat) {
    id in rows && rows[id].status == Analyzing
  }

  predicate Stale(rows: map<nat, Case>, id: nat, cutoff: int) {
    id in rows && rows[id].status == Analyzing && rows[id].updatedAt < cutoff
  }

  class CaseRepository {
    var rows: map<nat, Case>

    constructor ()
      ensures rows == map[]
    {
      rows := map[];
    }

    /** Inserting a row gives it an identifier that was never used. */
    method Create(id: nat, item: Case)
      requires id !in rows
      modifies this
      ensures rows == old(rows)[id := item]
    {
      rows := rows[id := item];
    }

    method Get(id: nat) returns (r: Result<Case>)
      ensures r == if id in rows then Ok(rows[id]) else Err("record not found")
    {
      if id !in rows {
        return Err("record not found");
      }
      return Ok(rows[id]);
    }

    method Transition(id: nat, version: nat, from: Status, to: Status, updates: Updates, now: int) returns (changed: bool)
      modifies this
      ensures changed == Transitionable(old(rows), id, version, from)
      ensures rows == if changed then old(rows)[id := Updated(old(rows)[id], to, updates, now)] else old(rows)
    {
      changed := id in rows && rows[id].version == version && rows[id].status == from;
      if changed {
        rows := rows[id := Updated(rows[id], to, updates, now)];
      }
    }

    method SaveAnalysis(id: nat, status: Status, updates: Updates, now: int) returns (changed: bool)
      modifies this
      ensures changed == Savable(old(rows), id)
      ensures rows == if changed then old(rows)[id := Updated(old(rows)[id], status, updates, now)] else old(rows)
    {
      changed := id in rows && rows[id].status == Analyzing;
      if changed {
        rows := rows[id := Updated(rows[id], status, updates, now)];
      }
    }

    method RecoverStaleAnalysis(id: nat, cutoff: int, now: int) returns (recovered: bool)
      modifies this
      ensures recovered == Stale(old(rows), id, cutoff)
      ensures rows == if recovered then old(rows)[id := Updated(old(rows)[id], Draft, RecoveryUpdates(), now)] else old(rows)
    {
      recovered := id in rows && rows[id].status == Analyzing && rows[id].updatedAt < cutoff;
      if recovered {
        rows := rows[id := Updated(rows[id], Draft, RecoveryUpdates(), now)];
      }
    }
  }
}
