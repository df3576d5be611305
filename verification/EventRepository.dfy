/** model/event_marker.go and repository/event_repository.go: event markers and their in-place updates. */
module EventRepository {
  import opened Results
  import opened Detect
  import opened Compare

  datatype Marker = Marker(
    traceId: nat,
    distance: real,
    eventType: EventType,
    insertionLoss: real,
    reflectance: real,
    confidence: real,
    algorithmType: EventType,
    algorithmDistance: real,
    algorithmLoss: real,
    reviewed: bool,
    note: string,
    reviewedBy: Option<nat>,
    reviewedAt: Option<int>)

  /** The marker that EventService.Detect builds for a detected event. */
  function NewMarker(traceId: nat, e: DetectedEvent): Marker {
    Marker(traceId, e.distance, e.eventType, e.insertionLoss, e.reflectance, e.confidence,
           e.eventType, e.distance, e.insertionLoss, false, "", None, None)
  }

  /** Whether the algorithm's figures of a marker are those of the event. */
  predicate RecordsEvent(m: Marker, traceId: nat, e: DetectedEvent) {
    && m.traceId == traceId && m.reflectance == e.reflectance && m.confidence == e.confidence
    && m.insertionLoss == m.algorithmLoss == e.insertionLoss
    && m.algorithmType == e.eventType && m.algorithmDistance == e.distance
  }

  function Reviewed(m: Marker, eventType: EventType, distance: real, note: string, actor: nat, at: int): Marker {
    m.(eventType := eventType, distance := distance, reviewed := true, note := note, reviewedBy := Some(actor), reviewedAt := Some(at))
  }

  /** What DELETE WHERE trace_id = ... AND reviewed = false leaves. */
  function Kept(markers: map<nat, Marker>, traceId: nat): map<nat, Marker> {
    map id | id in markers && (markers[id].traceId != traceId || markers[id].reviewed) :: markers[id]
  }

  /** Rows inserted one after another under consecutive fresh identifiers. */
  function Inserted(markers: map<nat, Marker>, next: nat, added: seq<Marker>): map<nat, Marker> {
    if added == [] then markers
    else Inserted(markers, next, added[..|added| - 1])[next + |added| - 1 := added[|added| - 1]]
  }

  ghost predicate Distinct(ids: seq<nat>) {
    forall i, j :: 0 <= i < j < |ids| ==> ids[i] != ids[j]
  }

  ghost predicate SortedByDistance(markers: map<nat, Marker>, ids: seq<nat>) {
    && (forall id :: id in ids ==> id in markers)
    && (forall i, j :: 0 <= i < j < |ids| ==> markers[ids[i]].distance <= markers[ids[j]].distance)
  }

  /** The markers of one trace by identifier, in the order of SELECT ... ORDER BY distance_m. */
  ghost predicate IsListing(markers: map<nat, Marker>, traceId: nat, ids: seq<nat>) {
    && (forall id :: id in ids <==> id in markers && markers[id].traceId == traceId)
    && Distinct(ids) && SortedByDistance(markers, ids)
  }

  /** The conversion of compareEvents. */
  function Comparable(markers: map<nat, Marker>, ids: seq<nat>): (events: seq<ComparableEvent>)
    requires forall id :: id in ids ==> id in markers
    ensures |events| == |ids|
  {
    seq(|ids|, i requires 0 <= i < |ids| =>
      var m := markers[ids[i]]; ComparableEvent(ids[i], m.distance, m.insertionLoss, m.confidence))
  }

  class EventRepository {
    var markers: map<nat, Marker>
    var nextId: nat

    constructor ()
      ensures markers == map[] && nextId == 0
    {
      markers, nextId := map[], 0;
    }

    method ReplaceForTrace(traceId: nat, events: seq<Marker>)
      modifies this
      ensures markers == Inserted(Kept(old(markers), traceId), old(nextId), events)
      ensures nextId == old(nextId) + |events|
    {
      markers := Kept(markers, traceId);
      ghost var kept, first := markers, nextId;
      for i := 0 to |events|
        invariant nextId == first + i
        invariant markers == Inserted(kept, first, events[..i])
      {
        assert events[..i + 1][..i] == events[..i];
        markers := markers[nextId := events[i]];
        nextId := nextId + 1;
      }
      assert events[..|events|] == events;
    }

    method Get(id: nat) returns (r: Result<Marker>)
      ensures r == if id in markers then Ok(markers[id]) else Err("record not found")
    {
      if id !in markers {
        return Err("record not found");
      }
      return Ok(markers[id]);
    }

    method Review(id: nat, eventType: EventType, distance: real, note: string, actor: nat, at: int) returns (changed: bool)
      modifies this
      ensures nextId == old(nextId) && changed == (id in old(markers))
      ensures markers == if changed then old(markers)[id := Reviewed(old(markers)[id], eventType, distance, note, actor, at)] else old(markers)
      ensures changed ==> markers[id] == old(markers)[id].(eventType := eventType, distance := distance, reviewed := true, note := note,
                                                           reviewedBy := Some(actor), reviewedAt := Some(at))
    {
      changed := id in markers;
      if changed {
        markers := markers[id := markers[id].(eventType := eventType, distance := distance, reviewed := true, note := note,
                                              reviewedBy := Some(actor), reviewedAt := Some(at))];
      }
    }

    /** Any listing in distance order; rows at equal distances come in no particular order. */
    method ForTrace(traceId: nat) returns (ids: seq<nat>)
      ensures IsListing(markers, traceId, ids)
    {
      ids := [];
      var left := set id | id in markers && markers[id].traceId == traceId;
      ghost var all := left;
      while |left| > 0
        invariant left <= all
        invariant forall id :: id in ids <==> id in all && id !in left
        invariant Distinct(ids)
        invariant SortedByDistance(markers, ids)
        decreases |left|
      {
        var id := PickOne(left);
        left := left - {id};
        InsertionKeepsOrder(markers, id, ids);
        InsertionAdds(markers, id, ids);
        ids := InsertByDistance(markers, id, ids);
      }
    }
  }

  method PickOne<T(==)>(s: set<T>) returns (x: T)
    requires |s| > 0
    ensures x in s
  {
    x :| x in s;
  }

  function InsertByDistance(markers: map<nat, Marker>, id: nat, ids: seq<nat>): (r: seq<nat>)
    requires id in markers && forall k :: k in ids ==> k in markers
  {
    if ids == [] || markers[id].distance <= markers[ids[0]].distance then [id] + ids
    else [ids[0]] + InsertByDistance(markers, id, ids[1..])
  }

  lemma {:induction false} InsertionAdds(markers: map<nat, Marker>, id: nat, ids: seq<nat>)
    requires id in markers && (forall k :: k in ids ==> k in markers) && id !in ids && Distinct(ids)
    ensures forall k :: k in InsertByDistance(markers, id, ids) <==> k == id || k in ids
    ensures Distinct(InsertByDistance(markers, id, ids))
  {
    if ids != [] && markers[id].distance > markers[ids[0]].distance {
      var rest := ids[1..];
      assert ids == [ids[0]] + rest;
      InsertionAdds(markers, id, rest);
      var r := InsertByDistance(markers, id, rest);
      assert ids[0] !in r;
      DistinctPrepend(ids[0], r);
    } else {
      DistinctPrepend(id, ids);
    }
  }

  lemma DistinctPrepend(id: nat, ids: seq<nat>)
    requires id !in ids && Distinct(ids)
    ensures Distinct([id] + ids)
  {
  }

  ghost predicate NoneCloser(markers: map<nat, Marker>, d: real, ids: seq<nat>) {
    forall k :: k in ids ==> k in markers && d <= markers[k].distance
  }

  lemma {:induction false} InsertionKeepsBound(markers: map<nat, Marker>, id: nat, ids: seq<nat>, d: real)
    requires id in markers && d <= markers[id].distance && NoneCloser(markers, d, ids)
    ensures NoneCloser(markers, d, InsertByDistance(markers, id, ids))
  {
    if ids != [] && markers[id].distance > markers[ids[0]].distance {
      InsertionKeepsBound(markers, id, ids[1..], d);
    }
  }

  lemma SortedPrepend(markers: map<nat, Marker>, id: nat, ids: seq<nat>)
    requires id in markers && SortedByDistance(markers, ids) && NoneCloser(markers, markers[id].distance, ids)
    ensures SortedByDistance(markers, [id] + ids)
  {
  }

  lemma {:induction false} InsertionKeepsOrder(markers: map<nat, Marker>, id: nat, ids: seq<nat>)
    requires id in markers && SortedByDistance(markers, ids)
    ensures SortedByDistance(markers, InsertByDistance(markers, id, ids))
  {
    if ids == [] {
    } else if markers[id].distance <= markers[ids[0]].distance {
      SortedPrepend(markers, id, ids);
    } else {
      var first, rest := ids[0], ids[1..];
      InsertionKeepsOrder(markers, id, rest);
      InsertionKeepsBound(markers, id, rest, markers[first].distance);
      SortedPrepend(markers, first, InsertByDistance(markers, id, rest));
    }
  }
}
