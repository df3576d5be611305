/** What detections and other reviews do to what a reviewer has decided, in every run. */
module EvidenceReviewLaws {
  import opened Results
  import opened Detect
  import opened TraceRepository
  import opened EventRepository
  import opened EvidenceProtocol
  import opened EvidenceLaws
  import DetectLaws

  // ----- only reviews change a reviewed marker -----

  /** The step commits a review of the marker. */
  predicate Reviews(s: State, step: Step, id: nat) {
    step.Commit? && step.call in s.calls && Revising(s.calls[step.call]) && s.calls[step.call].request.markerId == id
  }

  lemma MoveKeepsReviewed(s: State, step: Step, t: State, id: nat)
    requires MarkersMove(s, step, t) && Below(s.markers, s.nextMarker)
    requires id in s.markers && s.markers[id].reviewed && !Reviews(s, step, id)
    ensures id in t.markers && t.markers[id] == s.markers[id]
  {
    if step.Commit? && step.call in s.calls && Replacing(s.calls[step.call]) {
      var call := s.calls[step.call];
      ReplacedRows(s.markers, s.nextMarker, call.request.traceId, call.phase.processing.found.events, id);
    }
  }

  ghost predicate NoReviewOf(s: State, steps: seq<Step>, id: nat) {
    steps == [] || (NoReviewOf(s, steps[..|steps| - 1], id) && !Reviews(Exec(s, steps[..|steps| - 1]), steps[|steps| - 1], id))
  }

  /**
   From any moment of any run on, a reviewed marker keeps everything, the reviewer's type, distance
   and note included, until somebody reviews it again: no detection ever touches it.
   */
  lemma {:induction false} OnlyReviewsChangeReviewed(clock: int, maxPoints: nat, before: seq<Step>, after: seq<Step>, id: nat)
    requires var s := Exec(Initial(clock, maxPoints), before);
             id in s.markers && s.markers[id].reviewed && NoReviewOf(s, after, id)
    ensures var s, t := Exec(Initial(clock, maxPoints), before), Exec(Initial(clock, maxPoints), before + after);
            id in t.markers && t.markers[id] == s.markers[id]
  {
    if after == [] {
      assert before + after == before;
    } else {
      var init, step := after[..|after| - 1], after[|after| - 1];
      OnlyReviewsChangeReviewed(clock, maxPoints, before, init, id);
      assert (before + after)[..|before + after| - 1] == before + init;
      ExecConcat(Initial(clock, maxPoints), before, init);
      var t := Exec(Initial(clock, maxPoints), before + init);
      IdentifiersBelow(clock, maxPoints, before + init);
      StepMovesMarkers(t, step);
      MoveKeepsReviewed(t, step, Next(t, step), id);
    }
  }

  // ----- a review that names no distance -----

  /** The call reviews without naming a distance and remembers the copy it read. */
  ghost predicate CarriesCopy(s: State, c: nat, request: Request, copy: Marker) {
    && c in s.calls && s.calls[c].request == request
    && match s.calls[c].phase
       case MarkerRead(marker) => marker == copy
       case AtRevise(distance, _) => distance == copy.distance
       case Finished => true
       case _ => false
  }

  predicate NamesNoDistance(request: Request) { request.ReviewEvent? && request.distance.None? }

  lemma StepCarriesCopy(s: State, step: Step, c: nat, request: Request, copy: Marker)
    requires CarriesCopy(s, c, request, copy) && NamesNoDistance(request)
    ensures CarriesCopy(Next(s, step), c, request, copy)
  {
    StepMovesCall(s, step, c);
  }

  lemma {:induction false} CopyIsCarried(s: State, steps: seq<Step>, c: nat, request: Request, copy: Marker)
    requires CarriesCopy(s, c, request, copy) && NamesNoDistance(request)
    ensures CarriesCopy(Exec(s, steps), c, request, copy)
  {
    if steps != [] {
      CopyIsCarried(s, steps[..|steps| - 1], c, request, copy);
      StepCarriesCopy(Exec(s, steps[..|steps| - 1]), steps[|steps| - 1], c, request, copy);
    }
  }

  lemma ReviseWritesDistance(s: State, c: nat)
    requires c in s.calls && Revising(s.calls[c]) && s.calls[c].request.markerId in s.markers
    ensures var id := s.calls[c].request.markerId;
            id in Next(s, Commit(c, 0)).markers && Next(s, Commit(c, 0)).markers[id].distance == s.calls[c].phase.distance
  {
    StepMovesMarkers(s, Commit(c, 0));
  }

  /**
   A review that names no distance writes back the one its read saw, whatever happened in between;
   so it leaves the stored distance alone exactly when that is still the distance of its copy.
   */
  lemma ReviewKeepsDistanceIff(s: State, steps: seq<Step>, c: nat, copy: Marker)
    requires c in s.calls && NamesNoDistance(s.calls[c].request) && s.calls[c].phase == MarkerRead(copy)
    requires var t := Exec(s, steps); c in t.calls && t.calls[c].phase.AtRevise? && s.calls[c].request.markerId in t.markers
    ensures var t, id := Exec(s, steps), s.calls[c].request.markerId;
            var now := Next(t, Commit(c, 0)).markers;
            && id in now && now[id].distance == copy.distance
            && (now[id].distance == t.markers[id].distance <==> t.markers[id].distance == copy.distance)
  {
    CopyIsCarried(s, steps, c, s.calls[c].request, copy);
    ReviseWritesDistance(Exec(s, steps), c);
  }

  // ----- events recorded twice -----

  predicate SameFigures(a: DetectedEvent, b: DetectedEvent) {
    && a.distance == b.distance && a.eventType == b.eventType && a.insertionLoss == b.insertionLoss
    && a.reflectance == b.reflectance && a.confidence == b.confidence
  }

  predicate HasTwin(events: seq<DetectedEvent>, i: nat)
    requires i < |events|
  {
    exists j :: 0 <= j < |events| && j != i && SameFigures(events[i], events[j])
  }

  /** Some marker other than the given one records the event. */
  ghost predicate RecordedBesides(markers: map<nat, Marker>, t: nat, e: DetectedEvent, but: nat) {
    exists id :: id in markers && id != but && RecordsEvent(markers[id], t, e)
  }

  ghost predicate RecordedByReviewed(markers: map<nat, Marker>, t: nat, e: DetectedEvent) {
    exists id :: id in markers && markers[id].reviewed && RecordsEvent(markers[id], t, e)
  }

  lemma OtherRecordIsOldOrTwin(markers: map<nat, Marker>, next: nat, t: nat, events: seq<DetectedEvent>, i: nat, id: nat)
    requires Below(markers, next) && i < |events| && id != next + i
    requires id in Replaced(markers, next, t, events) && RecordsEvent(Replaced(markers, next, t, events)[id], t, events[i])
    ensures RecordedByReviewed(markers, t, events[i]) || HasTwin(events, i)
  {
    ReplacedRows(markers, next, t, events, id);
    if id in markers {
      assert markers[id].reviewed && RecordsEvent(markers[id], t, events[i]);
    } else {
      assert SameFigures(events[i], events[id - next]);
    }
  }

  lemma ReviewedRecordStays(markers: map<nat, Marker>, next: nat, t: nat, events: seq<DetectedEvent>, i: nat)
    requires Below(markers, next) && i < |events| && RecordedByReviewed(markers, t, events[i])
    ensures RecordedBesides(Replaced(markers, next, t, events), t, events[i], next + i)
  {
    var id :| id in markers && markers[id].reviewed && RecordsEvent(markers[id], t, events[i]);
    ReplacedRows(markers, next, t, events, id);
    var after := Replaced(markers, next, t, events);
    assert id in after && id != next + i && RecordsEvent(after[id], t, events[i]);
  }

  lemma TwinRecords(markers: map<nat, Marker>, next: nat, t: nat, events: seq<DetectedEvent>, i: nat)
    requires Below(markers, next) && i < |events| && HasTwin(events, i)
    ensures RecordedBesides(Replaced(markers, next, t, events), t, events[i], next + i)
  {
    var j :| 0 <= j < |events| && j != i && SameFigures(events[i], events[j]);
    ReplacedRows(markers, next, t, events, next + j);
    var after := Replaced(markers, next, t, events);
    assert next + j in after && next + j != next + i && RecordsEvent(after[next + j], t, events[i]);
  }

  /**
   Exactly when a detection leaves its i-th event recorded twice: when a reviewed marker of the
   trace recorded that event before, or the detection itself found another event with the same figures.
   */
  lemma RecordedTwiceIff(markers: map<nat, Marker>, next: nat, t: nat, events: seq<DetectedEvent>, i: nat)
    requires Below(markers, next) && i < |events|
    ensures var after := Replaced(markers, next, t, events);
            && next + i in after && !after[next + i].reviewed && RecordsEvent(after[next + i], t, events[i])
            && (RecordedBesides(after, t, events[i], next + i) <==> RecordedByReviewed(markers, t, events[i]) || HasTwin(events, i))
  {
    var after := Replaced(markers, next, t, events);
    ReplacedRows(markers, next, t, events, next + i);
    if RecordedBesides(after, t, events[i], next + i) {
      var id :| id in after && id != next + i && RecordsEvent(after[id], t, events[i]);
      OtherRecordIsOldOrTwin(markers, next, t, events, i, id);
    } else if RecordedByReviewed(markers, t, events[i]) {
      ReviewedRecordStays(markers, next, t, events, i);
    } else if HasTwin(events, i) {
      TwinRecords(markers, next, t, events, i);
    }
  }

  /** The call is about to commit a detection with the parameters stored for its trace and the route of the last one. */
  ghost predicate RepeatsLast(s: State, c: nat) {
    && c in s.calls && Replacing(s.calls[c])
    && var t, p := s.calls[c].request.traceId, s.calls[c].phase.processing;
       && t in s.traces && t in s.detections && s.calls[c].phase.route == s.detections[t].route
       && (p.window, p.threshold, p.merge) == (s.traces[t].denoiseWindow, s.traces[t].peakThreshold, s.traces[t].mergeWindow)
  }

  lemma RepeatedOutcome(p: Processing, trace: Trace, d: LastDetection)
    requires ProcessingOf(p, trace, d.route) && Reproduces(trace, d)
    requires (p.window, p.threshold, p.merge) == (trace.denoiseWindow, trace.peakThreshold, trace.mergeWindow)
    ensures p.found.events == d.events
  {
  }

  lemma LastMarkerStaysIff(markers: map<nat, Marker>, next: nat, detections: map<nat, LastDetection>, t: nat, i: nat)
    requires MarkersSound(markers, next, detections) && t in detections && i < |detections[t].events|
    ensures var d, after := detections[t], Replaced(markers, next, t, detections[t].events);
            && d.first + i in markers
            && (d.first + i in after <==> markers[d.first + i].reviewed)
            && (d.first + i in after ==> RecordsEvent(after[d.first + i], t, d.events[i]))
  {
    SoundIsBelow(markers, next, detections);
    assert Recorded(markers, next, t, detections[t]);
    assert EventRecorded(markers, t, detections[t], i);
    ReplacedRows(markers, next, t, detections[t].events, detections[t].first + i);
  }

  /** What committing a repeated detection does to the i-th event of the last one. */
  ghost predicate TwiceIfReviewed(s: State, t: nat, i: nat, after: map<nat, Marker>)
    requires t in s.detections && i < |s.detections[t].events|
  {
    var d := s.detections[t];
    && s.nextMarker + i in after && !after[s.nextMarker + i].reviewed && RecordsEvent(after[s.nextMarker + i], t, d.events[i])
    && d.first + i in s.markers && d.first + i < s.nextMarker
    && (d.first + i in after <==> s.markers[d.first + i].reviewed)
    && (d.first + i in after ==> RecordsEvent(after[d.first + i], t, d.events[i]))
    && (RecordedBesides(after, t, d.events[i], s.nextMarker + i) <==> RecordedByReviewed(s.markers, t, d.events[i]) || HasTwin(d.events, i))
  }

  lemma ReplacedTwiceIfReviewed(s: State, t: nat, i: nat)
    requires AllSound(s) && t in s.detections && i < |s.detections[t].events|
    ensures TwiceIfReviewed(s, t, i, Replaced(s.markers, s.nextMarker, t, s.detections[t].events))
  {
    SoundIsBelow(s.markers, s.nextMarker, s.detections);
    LastMarkerStaysIff(s.markers, s.nextMarker, s.detections, t, i);
    RecordedTwiceIff(s.markers, s.nextMarker, t, s.detections[t].events, i);
  }

  lemma RepeatCommits(s: State, c: nat)
    requires RepeatsLast(s, c) && CallSound(s, c) && DetectionSound(s, s.calls[c].request.traceId)
    ensures var t := s.calls[c].request.traceId;
            Next(s, Commit(c, 0)).markers == Replaced(s.markers, s.nextMarker, t, s.detections[t].events)
  {
    var t := s.calls[c].request.traceId;
    RepeatedOutcome(s.calls[c].phase.processing, s.traces[t], s.detections[t]);
    StepMovesMarkers(s, Commit(c, 0));
  }

  /**
   In every run, detecting again with the stored parameters and the same route finds the events of
   the last detection again and gives each a new marker; the old marker of an event is still there
   exactly when it has been reviewed.  So exactly the events with reviewed records, or with a twin,
   are then recorded twice.
   */
  lemma RedetectionRecordsReviewedEventTwice(clock: int, maxPoints: nat, steps: seq<Step>, c: nat, i: nat)
    requires var s := Exec(Initial(clock, maxPoints), steps);
             RepeatsLast(s, c) && i < |s.detections[s.calls[c].request.traceId].events|
    ensures var s := Exec(Initial(clock, maxPoints), steps);
            TwiceIfReviewed(s, s.calls[c].request.traceId, i, Next(s, Commit(c, 0)).markers)
  {
    var s := Exec(Initial(clock, maxPoints), steps);
    CallsSound(clock, maxPoints, steps, c);
    EveryDetectionReproduces(clock, maxPoints, steps, s.calls[c].request.traceId);
    MarkersSoundInEveryRun(clock, maxPoints, steps);
    RepeatCommits(s, c);
    ReplacedTwiceIfReviewed(s, s.calls[c].request.traceId, i);
  }
}
