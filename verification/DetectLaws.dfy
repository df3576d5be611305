/** What peak merging and detection guarantee on every trace. */
module DetectLaws {
  import opened Results
  import opened Reals
  import opened OrderStatistics
  import opened Distance
  import opened Detect
  import Denoise

  // ----- peaks -----

  ghost predicate IndexSorted(peaks: seq<Peak>) {
    forall i, j :: 0 <= i < j < |peaks| ==> peaks[i].index < peaks[j].index
  }

  /** The peaks are in strictly increasing index order, and i is a peak exactly when its step reaches the threshold. */
  lemma {:induction false} PeaksAreExactlyTheLargeSteps(points: seq<real>, threshold: real, n: nat)
    requires n <= |points|
    ensures IndexSorted(PeaksUpTo(points, threshold, n))
    ensures forall p :: p in PeaksUpTo(points, threshold, n) <==>
              0 < p.index < n && Abs(Delta(points, p.index)) >= threshold && p == PeakAt(points, p.index)
  {
    PeaksInTrace(points, threshold, n);
    if n > 1 {
      PeaksAreExactlyTheLargeSteps(points, threshold, n - 1);
      PeaksInTrace(points, threshold, n - 1);
    }
  }

  // ----- merging -----

  /** The peak that stays current after looking at the next one within the window. */
  function Stronger(current: Peak, next: Peak): Peak {
    if next.magnitude > current.magnitude then next else current
  }

  /** The peaks still to come are sorted and lie after the current one. */
  ghost predicate Ahead(current: Peak, rest: seq<Peak>) {
    IndexSorted(rest) && forall i :: 0 <= i < |rest| ==> current.index < rest[i].index
  }

  lemma AheadOfFirst(peaks: seq<Peak>)
    requires peaks != [] && IndexSorted(peaks)
    ensures Ahead(peaks[0], peaks[1..])
  {
  }

  ghost predicate Gapped(peaks: seq<Peak>, window: int) {
    forall i :: 0 < i < |peaks| ==> peaks[i].index - peaks[i - 1].index > window
  }

  lemma {:induction false} MergeFromGapped(current: Peak, rest: seq<Peak>, window: int)
    requires Ahead(current, rest) && window >= 1
    ensures Gapped(MergeFrom(current, rest, window), window)
    ensures MergeFrom(current, rest, window)[0].index >= current.index
    decreases |rest|
  {
    if rest != [] {
      AheadOfFirst(rest);
      MergeFromGapped(Stronger(current, rest[0]), rest[1..], window);
      MergeFromGapped(rest[0], rest[1..], window);
    }
  }

  /** Neighbouring survivors are more than the merge window apart. */
  lemma MergeGapped(peaks: seq<Peak>, window: int)
    requires IndexSorted(peaks) && window >= 1
    ensures Gapped(Merge(peaks, window), window)
  {
    if peaks != [] {
      AheadOfFirst(peaks);
      MergeFromGapped(peaks[0], peaks[1..], window);
    }
  }

  ghost predicate Subsequence(a: seq<Peak>, b: seq<Peak>) {
    a == [] || (b != [] && ((a[0] == b[0] && Subsequence(a[1..], b[1..])) || Subsequence(a, b[1..])))
  }

  lemma {:induction false} MergeFromSubsequence(current: Peak, rest: seq<Peak>, window: int)
    ensures Subsequence(MergeFrom(current, rest, window), [current] + rest)
    decreases |rest|
  {
    assert ([current] + rest)[1..] == rest;
    if rest != [] {
      var next, later := rest[0], rest[1..];
      assert rest == [next] + later;
      var merged := MergeFrom(current, rest, window);
      if next.index - current.index <= window {
        var kept := Stronger(current, next);
        MergeFromSubsequence(kept, later, window);
        assert ([kept] + later)[1..] == later;
        if kept == current {
          if merged[0] == current && Subsequence(merged[1..], later) {
            assert Subsequence(merged[1..], rest);
          } else {
            assert Subsequence(merged, rest);
          }
        } else {
          assert Subsequence(merged, rest);
        }
      } else {
        MergeFromSubsequence(next, later, window);
        assert merged[1..] == MergeFrom(next, later, window);
      }
    } else {
      assert MergeFrom(current, rest, window)[1..] == [];
    }
  }

  /** Merging only drops peaks: it never invents, alters or reorders one. */
  lemma MergeSubsequence(peaks: seq<Peak>, window: int)
    ensures Subsequence(Merge(peaks, window), peaks)
  {
    if peaks != [] {
      assert peaks == [peaks[0]] + peaks[1..];
      MergeFromSubsequence(peaks[0], peaks[1..], window);
    }
  }

  /** A path of hops of at most the window along which the magnitude never falls. */
  ghost predicate Climb(path: seq<Peak>, peaks: seq<Peak>, window: int) {
    && path != []
    && (forall i :: 0 <= i < |path| ==> path[i] in peaks)
    && (forall i :: 0 < i < |path| ==>
          && Abs((path[i].index - path[i - 1].index) as real) <= window as real
          && path[i].magnitude >= path[i - 1].magnitude)
  }

  lemma ClimbWiden(path: seq<Peak>, fewer: seq<Peak>, peaks: seq<Peak>, window: int)
    requires Climb(path, fewer, window) && forall p :: p in fewer ==> p in peaks
    ensures Climb(path, peaks, window)
  {
  }

  lemma ClimbPrepend(p: Peak, path: seq<Peak>, peaks: seq<Peak>, window: int)
    requires Climb(path, peaks, window) && p in peaks
    requires Abs((path[0].index - p.index) as real) <= window as real && p.magnitude <= path[0].magnitude
    ensures Climb([p] + path, peaks, window)
  {
    var longer := [p] + path;
    forall i | 0 < i < |longer|
      ensures Abs((longer[i].index - longer[i - 1].index) as real) <= window as real
      ensures longer[i].magnitude >= longer[i - 1].magnitude
    {
      assert longer[i] == path[i - 1];
      if i > 1 { assert longer[i - 1] == path[i - 2]; }
    }
  }

  ghost predicate ClimbsTo(p: Peak, q: Peak, peaks: seq<Peak>, window: int) {
    exists path: seq<Peak> :: Climb(path, peaks, window) && path[0] == p && path[|path| - 1] == q
  }

  ghost predicate ClimbsToOneOf(p: Peak, goals: seq<Peak>, peaks: seq<Peak>, window: int) {
    exists q :: q in goals && ClimbsTo(p, q, peaks, window)
  }

  lemma StayPut(p: Peak, goals: seq<Peak>, peaks: seq<Peak>, window: int)
    requires p in goals && p in peaks
    ensures ClimbsToOneOf(p, goals, peaks, window)
  {
    assert Climb([p], peaks, window);
    assert ClimbsTo(p, p, peaks, window);
  }

  lemma Widen(p: Peak, goals: seq<Peak>, fewer: seq<Peak>, more: seq<Peak>, peaks: seq<Peak>, window: int)
    requires ClimbsToOneOf(p, goals, fewer, window)
    requires (forall q :: q in fewer ==> q in peaks) && (forall q :: q in goals ==> q in more)
    ensures ClimbsToOneOf(p, more, peaks, window)
  {
    var q :| q in goals && ClimbsTo(p, q, fewer, window);
    var path: seq<Peak> :| Climb(path, fewer, window) && path[0] == p && path[|path| - 1] == q;
    ClimbWiden(path, fewer, peaks, window);
    assert ClimbsTo(p, q, peaks, window);
  }

  lemma OneHopUp(p: Peak, next: Peak, goals: seq<Peak>, peaks: seq<Peak>, window: int)
    requires ClimbsToOneOf(next, goals, peaks, window) && p in peaks
    requires Abs((next.index - p.index) as real) <= window as real && p.magnitude <= next.magnitude
    ensures ClimbsToOneOf(p, goals, peaks, window)
  {
    var q :| q in goals && ClimbsTo(next, q, peaks, window);
    var path: seq<Peak> :| Climb(path, peaks, window) && path[0] == next && path[|path| - 1] == q;
    ClimbPrepend(p, path, peaks, window);
    var longer := [p] + path;
    assert longer[0] == p && longer[|longer| - 1] == q;
    assert ClimbsTo(p, q, peaks, window);
  }

  lemma {:induction false} ClimbFrom(current: Peak, rest: seq<Peak>, window: int, p: Peak)
    requires Ahead(current, rest) && window >= 1 && p in [current] + rest
    ensures ClimbsToOneOf(p, MergeFrom(current, rest, window), [current] + rest, window)
    decreases |rest|
  {
    var all, goals := [current] + rest, MergeFrom(current, rest, window);
    if rest == [] {
      StayPut(p, goals, all, window);
    } else {
      AheadOfFirst(rest);
      var next, later := rest[0], rest[1..];
      if next.index - current.index <= window {
        var kept := Stronger(current, next);
        var start := if p in later then p else kept;
        ClimbFrom(kept, later, window, start);
        Widen(start, goals, [kept] + later, goals, all, window);
        if start != p {
          OneHopUp(p, kept, goals, all, window);
        }
      } else if p == current {
        StayPut(p, goals, all, window);
      } else {
        ClimbFrom(next, later, window, p);
        Widen(p, MergeFrom(next, later, window), [next] + later, goals, all, window);
      }
    }
  }

  /** Every peak, dropped or kept, climbs to a survivor. */
  lemma EveryPeakClimbsToSurvivor(peaks: seq<Peak>, window: int, p: Peak)
    requires IndexSorted(peaks) && window >= 1 && p in peaks
    ensures ClimbsToOneOf(p, Merge(peaks, window), peaks, window)
  {
    assert peaks == [peaks[0]] + peaks[1..];
    AheadOfFirst(peaks);
    ClimbFrom(peaks[0], peaks[1..], window, p);
  }

  /** Strictly above every peak within the window before p, and at least every peak within the window after it. */
  ghost predicate Dominates(p: Peak, peaks: seq<Peak>, window: int) {
    forall q :: q in peaks ==>
      && (p.index - window <= q.index < p.index ==> q.magnitude < p.magnitude)
      && (p.index < q.index <= p.index + window ==> q.magnitude <= p.magnitude)
  }

  lemma {:induction false} DominantSurvivesFrom(current: Peak, rest: seq<Peak>, window: int, p: Peak)
    requires Ahead(current, rest) && window >= 1
    requires p in [current] + rest && Dominates(p, [current] + rest, window)
    ensures p in MergeFrom(current, rest, window)
    decreases |rest|
  {
    if rest != [] {
      AheadOfFirst(rest);
      var next, later := rest[0], rest[1..];
      assert rest == [next] + later;
      if next.index - current.index <= window {
        var kept := Stronger(current, next);
        assert p in [kept] + later;
        DominantSurvivesFrom(kept, later, window, p);
      } else if p != current {
        DominantSurvivesFrom(next, later, window, p);
      }
    }
  }

  /** A peak that dominates its neighbourhood survives merging. */
  lemma DominantPeakSurvives(peaks: seq<Peak>, window: int, p: Peak)
    requires IndexSorted(peaks) && window >= 1 && p in peaks && Dominates(p, peaks, window)
    ensures p in Merge(peaks, window)
  {
    assert peaks == [peaks[0]] + peaks[1..];
    AheadOfFirst(peaks);
    DominantSurvivesFrom(peaks[0], peaks[1..], window, p);
  }

  /** At least every peak within the window after p. */
  ghost predicate NoneStrongerAfter(p: Peak, peaks: seq<Peak>, window: int) {
    forall q :: q in peaks && p.index < q.index <= p.index + window ==> q.magnitude <= p.magnitude
  }

  /** Strictly above every peak within the window before p. */
  ghost predicate NoneAsStrongBefore(p: Peak, peaks: seq<Peak>, window: int) {
    forall q :: q in peaks && p.index - window <= q.index < p.index ==> q.magnitude < p.magnitude
  }

  lemma {:induction false} SurvivorBeatsLater(current: Peak, rest: seq<Peak>, window: int, p: Peak)
    requires Ahead(current, rest) && window >= 1 && p in MergeFrom(current, rest, window)
    ensures NoneStrongerAfter(p, [current] + rest, window)
    decreases |rest|
  {
    MergeFromMembers(current, rest, window);
    if rest != [] {
      AheadOfFirst(rest);
      var next, later := rest[0], rest[1..];
      assert rest == [next] + later;
      MergeFromMembers(next, later, window);
      if next.index - current.index <= window {
        MergeFromMembers(Stronger(current, next), later, window);
        SurvivorBeatsLater(Stronger(current, next), later, window, p);
      } else if p in MergeFrom(next, later, window) {
        SurvivorBeatsLater(next, later, window, p);
      }
    }
  }

  /**
   Exactly the peaks that survive and have no peak as strong within the window before them
   dominate their neighbourhood: a survivor can only fail against an earlier peak.
   */
  lemma DominatesIff(peaks: seq<Peak>, window: int, p: Peak)
    requires IndexSorted(peaks) && window >= 1 && p in peaks
    ensures Dominates(p, peaks, window) <==> p in Merge(peaks, window) && NoneAsStrongBefore(p, peaks, window)
  {
    if p in Merge(peaks, window) {
      assert peaks == [peaks[0]] + peaks[1..];
      AheadOfFirst(peaks);
      SurvivorBeatsLater(peaks[0], peaks[1..], window, p);
      assert Dominates(p, peaks, window) <==> NoneStrongerAfter(p, peaks, window) && NoneAsStrongBefore(p, peaks, window);
    } else if Dominates(p, peaks, window) {
      DominantPeakSurvives(peaks, window, p);
    }
  }

  /** Of a survivor: it is the strongest within its window exactly when no earlier peak there is as strong. */
  lemma SurvivorDominatesIff(peaks: seq<Peak>, window: int, p: Peak)
    requires IndexSorted(peaks) && window >= 1 && p in Merge(peaks, window)
    ensures p in peaks
    ensures Dominates(p, peaks, window) <==> NoneAsStrongBefore(p, peaks, window)
  {
    MergeFromMembers(peaks[0], peaks[1..], window);
    DominatesIff(peaks, window, p);
  }

  /** In particular the first of the globally largest peaks is never merged away. */
  lemma FirstMaximumSurvives(peaks: seq<Peak>, window: int, k: nat)
    requires IndexSorted(peaks) && window >= 1 && k < |peaks|
    requires forall i :: 0 <= i < |peaks| ==> peaks[i].magnitude <= peaks[k].magnitude
    requires forall i :: 0 <= i < k ==> peaks[i].magnitude < peaks[k].magnitude
    ensures peaks[k] in Merge(peaks, window)
  {
    DominantPeakSurvives(peaks, window, peaks[k]);
  }

  /**
   The condition of SurvivorDominatesIff can fail: a survivor may lie within the window of a
   stronger peak, when that one was itself merged into a still stronger peak too far away.
   */
  lemma SurvivorBesideStrongerPeak()
    ensures exists peaks: seq<Peak>, window: int, p: Peak, q: Peak ::
              && IndexSorted(peaks) && window >= 1 && p in Merge(peaks, window) && q in peaks
              && 0 < p.index - q.index <= window && q.magnitude > p.magnitude
  {
    var a, b, c := Peak(1, 5.0, 1.0), Peak(4, 4.0, 1.0), Peak(7, 3.0, 1.0);
    var peaks := [a, b, c];
    assert peaks[1..] == [b, c] && [b, c][1..] == [c] && [c][1..] == [];
    assert MergeFrom(c, [], 3) == [c];
    assert MergeFrom(a, [c], 3) == [a] + MergeFrom(c, [], 3);
    assert MergeFrom(a, [b, c], 3) == MergeFrom(a, [c], 3);
    assert Merge(peaks, 3) == [a, c];
    assert c in Merge(peaks, 3) && b in peaks;
  }

  lemma {:induction false} GappedIsFixed(current: Peak, rest: seq<Peak>, window: int)
    requires Gapped([current] + rest, window)
    ensures MergeFrom(current, rest, window) == [current] + rest
    decreases |rest|
  {
    if rest != [] {
      var all := [current] + rest;
      assert all[1] == rest[0] && all[0] == current;
      assert [rest[0]] + rest[1..] == rest;
      forall i | 0 < i < |rest|
        ensures rest[i].index - rest[i - 1].index > window
      {
        assert all[i + 1] == rest[i] && all[i] == rest[i - 1];
      }
      GappedIsFixed(rest[0], rest[1..], window);
    }
  }

  /** Merging what has been merged changes nothing. */
  lemma MergeIdempotent(peaks: seq<Peak>, window: int)
    requires IndexSorted(peaks) && window >= 1
    ensures Merge(Merge(peaks, window), window) == Merge(peaks, window)
  {
    MergeGapped(peaks, window);
    var merged := Merge(peaks, window);
    if merged != [] {
      assert merged == [merged[0]] + merged[1..];
      GappedIsFixed(merged[0], merged[1..], window);
    }
  }

  // ----- detection is truncation at the end of the route -----

  ghost predicate Reachable(peaks: seq<Peak>, k: int, line: Line)
    requires 0 <= k < |peaks| && line.Convertible()
  {
    Metres(peaks[k].index, line) <= line.routeLength
  }

  lemma ReachableIsDownward(peaks: seq<Peak>, j: nat, k: nat, line: Line)
    requires j <= k < |peaks| && line.Convertible() && IndexSorted(peaks)
    ensures Reachable(peaks, k, line) ==> Reachable(peaks, j, line)
  {
    MetresGrow(peaks[j].index, peaks[k].index, line);
  }

  lemma AcceptedIffReachable(peaks: seq<Peak>, k: nat, line: Line)
    requires k < |peaks| && line.Convertible() && peaks[k].index >= 0
    ensures ValidRouteDistance(Metres(peaks[k].index, line), line.routeLength) <==> Reachable(peaks, k, line)
  {
    MetresNonNegative(peaks[k].index, line);
  }

  /** events are what the first |events| of the n peaks are reported as, and the others lie beyond the route. */
  ghost predicate IsCutAtRouteEnd(events: seq<DetectedEvent>, peaks: seq<Peak>, n: nat, points: seq<real>, noise: real, threshold: real, line: Line)
    requires n <= |peaks| && InTrace(peaks, |points|) && threshold > 0.0 && line.Convertible()
  {
    && |events| <= n
    && (forall k :: 0 <= k < |events| ==>
          Reachable(peaks, k, line) && events[k].index == peaks[k].index && events[k] == EventOf(peaks[k], points, noise, threshold, line))
    && (forall k :: |events| <= k < n ==> !Reachable(peaks, k, line))
  }

  lemma {:induction false} EventsArePrefix(peaks: seq<Peak>, n: nat, points: seq<real>, noise: real, threshold: real, line: Line)
    requires n <= |peaks| && InTrace(peaks, |points|) && threshold > 0.0 && line.Convertible() && IndexSorted(peaks)
    ensures IsCutAtRouteEnd(EventsUpTo(peaks, n, points, noise, threshold, line), peaks, n, points, noise, threshold, line)
  {
    if n > 0 {
      EventsArePrefix(peaks, n - 1, points, noise, threshold, line);
      AcceptedIffReachable(peaks, n - 1, line);
      var before := EventsUpTo(peaks, n - 1, points, noise, threshold, line);
      if |before| < n - 1 {
        ReachableIsDownward(peaks, |before|, n - 1, line);
      }
    }
  }

  lemma CandidatesOrdered(points: seq<real>, threshold: real, window: int)
    requires window >= 1
    ensures IndexSorted(Candidates(points, threshold, window))
    ensures Gapped(Candidates(points, threshold, window), window)
  {
    PeaksAreExactlyTheLargeSteps(points, threshold, |points|);
    MergeGapped(PeaksUpTo(points, threshold, |points|), window);
    GappedIsSorted(Candidates(points, threshold, window), window);
  }

  lemma {:induction false} GappedIsSorted(peaks: seq<Peak>, window: int)
    requires Gapped(peaks, window) && window >= 1
    ensures IndexSorted(peaks)
  {
    if peaks != [] {
      var init := peaks[..|peaks| - 1];
      GappedIsSorted(init, window);
      forall i, j | 0 <= i < j < |peaks|
        ensures peaks[i].index < peaks[j].index
      {
        if j == |peaks| - 1 {
          assert peaks[j].index > peaks[j - 1].index;
          if i < j - 1 { assert init[i].index < init[j - 1].index; }
        } else {
          assert init[i].index < init[j].index;
        }
      }
    }
  }

  /**
   The reported events are the merged peaks up to the end of the route, in order, and
   the rejected ones are all the others.
   */
  lemma {:induction false} DetectionIsTruncation(points: seq<real>, threshold: real, window: int, line: Line)
    requires DetectSpec(points, threshold, window, line).Ok?
    ensures var merged := Candidates(points, threshold, window);
            var found := DetectSpec(points, threshold, window, line).value;
            && |found.events| + found.rejected == |merged|
            && threshold > 0.0
            && (merged != [] ==>
                  && line.Convertible()
                  && IsCutAtRouteEnd(found.events, merged, |merged|, points, Median(Tail(points)), threshold, line))
  {
    CandidatesOrdered(points, threshold, window);
    var merged := Candidates(points, threshold, window);
    if merged != [] {
      EventsArePrefix(merged, |merged|, points, Median(Tail(points)), threshold, line);
    }
  }

  lemma SameMetres(peaks: seq<Peak>, k: nat, line: Line, longer: real)
    requires k < |peaks| && line.Convertible() && line.routeLength <= longer
    ensures Metres(peaks[k].index, line) == Metres(peaks[k].index, line.(routeLength := longer))
    ensures Reachable(peaks, k, line) ==> Reachable(peaks, k, line.(routeLength := longer))
  {
    var line' := line.(routeLength := longer);
    assert Exact(peaks[k].index as real, line) == Exact(peaks[k].index as real, line');
  }

  lemma CutsAreNested(few: seq<DetectedEvent>, many: seq<DetectedEvent>, merged: seq<Peak>, points: seq<real>, noise: real, threshold: real, line: Line, longer: real)
    requires InTrace(merged, |points|) && threshold > 0.0 && line.Convertible() && line.routeLength <= longer
    requires IsCutAtRouteEnd(few, merged, |merged|, points, noise, threshold, line)
    requires IsCutAtRouteEnd(many, merged, |merged|, points, noise, threshold, line.(routeLength := longer))
    ensures few <= many
  {
    if |many| < |few| {
      SameMetres(merged, |many|, line, longer);
    }
    forall k | 0 <= k < |few|
      ensures few[k] == many[k]
    {
      SameMetres(merged, k, line, longer);
    }
  }

  /** A longer route keeps every event, unchanged, and can only append more. */
  lemma {:induction false} LongerRouteAppends(points: seq<real>, threshold: real, window: int, line: Line, longer: real)
    requires DetectSpec(points, threshold, window, line).Ok? && line.routeLength <= longer
    ensures DetectSpec(points, threshold, window, line.(routeLength := longer)).Ok?
    ensures DetectSpec(points, threshold, window, line).value.events
            <= DetectSpec(points, threshold, window, line.(routeLength := longer)).value.events
  {
    var line' := line.(routeLength := longer);
    DetectionIsTruncation(points, threshold, window, line);
    DetectionIsTruncation(points, threshold, window, line');
    var merged := Candidates(points, threshold, window);
    if merged != [] {
      CutsAreNested(DetectSpec(points, threshold, window, line).value.events,
                    DetectSpec(points, threshold, window, line').value.events,
                    merged, points, Median(Tail(points)), threshold, line, longer);
    }
  }

  /** Consecutive events are at least (window + 1) exact sample steps apart, less a centimetre of rounding. */
  lemma {:induction false} EventsAreSpaced(points: seq<real>, threshold: real, window: int, line: Line, k: nat)
    requires DetectSpec(points, threshold, window, line).Ok?
    requires k + 1 < |DetectSpec(points, threshold, window, line).value.events|
    ensures line.Convertible()
    ensures var events := DetectSpec(points, threshold, window, line).value.events;
            events[k + 1].distance - events[k].distance >= (window + 1) as real * ExactStep(line) - 0.01
  {
    DetectionIsTruncation(points, threshold, window, line);
    CandidatesOrdered(points, threshold, window);
    var merged := Candidates(points, threshold, window);
    PeaksAreSpaced(merged[k].index, merged[k + 1].index, window, line);
  }

  lemma PeaksAreSpaced(a: int, b: int, window: int, line: Line)
    requires line.Convertible() && b - a > window >= 0
    ensures Metres(b, line) - Metres(a, line) >= (window + 1) as real * ExactStep(line) - 0.01
  {
    MetresGrow(a, b, line);
    var few, many := (window + 1) as real, (b - a) as real;
    MultipleMonotone(few, many, ExactStep(line));
  }

  // ----- confidence -----

  lemma ConfidenceWithin(magnitude: real, threshold: real)
    requires threshold > 0.0 && magnitude >= threshold
    ensures 0.6 <= ConfidenceOf(magnitude, threshold) <= 0.99
  {
    var ratio := magnitude / (threshold * 10.0);
    assert ratio >= 0.1 by {
      assert magnitude / (threshold * 10.0) >= threshold / (threshold * 10.0);
      assert threshold / (threshold * 10.0) == 0.1;
    }
    Round3Within(600, Min(0.99, 0.5 + ratio), 990);
  }

  /** Every detected event carries a confidence between 0.6 and 0.99. */
  lemma {:induction false} DetectedConfidence(points: seq<real>, threshold: real, window: int, line: Line, k: nat)
    requires DetectSpec(points, threshold, window, line).Ok?
    requires k < |DetectSpec(points, threshold, window, line).value.events|
    ensures 0.6 <= DetectSpec(points, threshold, window, line).value.events[k].confidence <= 0.99
  {
    DetectionIsTruncation(points, threshold, window, line);
    var p := Candidates(points, threshold, window)[k];
    CandidateIsLargeStep(points, threshold, window, p);
    ConfidenceWithin(p.magnitude, threshold);
  }

  /** The type by the signed filtered step, each type with its own interval. */
  ghost predicate TypeFits(eventType: EventType, delta: real, threshold: real, nearEnd: bool) {
    match eventType
    case End => nearEnd
    case Connector => !nearEnd && delta >= 1.5 * threshold
    case Break => !nearEnd && delta <= -2.5 * threshold
    case Bend => !nearEnd && -1.5 * threshold < delta <= -threshold
    case Unknown => false
    case Splice => !nearEnd && (threshold <= delta < 1.5 * threshold || -2.5 * threshold < delta <= -1.5 * threshold)
  }

  /** The type by the two samples of the step. */
  ghost predicate TypeAt(eventType: EventType, points: seq<real>, i: int, threshold: real)
    requires 0 < i < |points|
  {
    TypeFits(eventType, points[i] - points[i - 1], threshold, i >= |points| - 3)
  }

  /** The event is what the two filtered samples at its place, the noise floor and the line say; no other type fits. */
  ghost predicate ReadsOffStep(e: DetectedEvent, points: seq<real>, noise: real, threshold: real, line: Line) {
    && 0 < e.index < |points| && threshold > 0.0 && IsHalfRoundTrip(e.distance, e.index, line)
    && var before, after := points[e.index - 1], points[e.index];
       && Abs(after - before) >= threshold
       && (forall t: EventType :: TypeAt(t, points, e.index, threshold) <==> t == e.eventType)
       && e.insertionLoss == (if after < before then Round3(before - after) else 0.0)
       && e.reflectance == Round3((if after < before then after else before) - noise)
       && e.confidence == Round3(Min(0.99, 0.5 + Abs(after - before) / (10.0 * threshold)))
  }

  lemma EventFitsStep(points: seq<real>, i: nat, noise: real, threshold: real, line: Line)
    requires 0 < i < |points| && threshold > 0.0 && line.Convertible() && Abs(Delta(points, i)) >= threshold
    ensures ReadsOffStep(EventOf(PeakAt(points, i), points, noise, threshold, line), points, noise, threshold, line)
  {
    RoundOfInteger(0);
    MetresAreHalfRoundTrip(i, line);
  }

  lemma CutEventReadsOffStep(events: seq<DetectedEvent>, merged: seq<Peak>, points: seq<real>, noise: real, threshold: real, line: Line, k: nat)
    requires InTrace(merged, |points|) && threshold > 0.0 && line.Convertible()
    requires IsCutAtRouteEnd(events, merged, |merged|, points, noise, threshold, line) && k < |events|
    requires Abs(Delta(points, merged[k].index)) >= threshold && merged[k] == PeakAt(points, merged[k].index)
    ensures ReadsOffStep(events[k], points, noise, threshold, line)
  {
    EventFitsStep(points, merged[k].index, noise, threshold, line);
  }

  /**
   Each reported event sits at a sample whose filtered step reaches the threshold; its distance is
   the half round trip, its type the one interval that the signed step falls into, and loss,
   reflectance and confidence are those of its two samples, the noise floor and the threshold.
   */
  lemma {:induction false} EventReadsOffStep(points: seq<real>, threshold: real, window: int, line: Line, k: nat)
    requires DetectSpec(points, threshold, window, line).Ok?
    requires k < |DetectSpec(points, threshold, window, line).value.events|
    ensures ReadsOffStep(DetectSpec(points, threshold, window, line).value.events[k], points, Median(Tail(points)), threshold, line)
    ensures IsNoiseFloor(Median(Tail(points)), points)
  {
    NoiseFloorIs(points);
    DetectionIsTruncation(points, threshold, window, line);
    var merged := Candidates(points, threshold, window);
    CandidateIsLargeStep(points, threshold, window, merged[k]);
    CutEventReadsOffStep(DetectSpec(points, threshold, window, line).value.events, merged, points, Median(Tail(points)), threshold, line, k);
  }

  /** No event lies beyond the route. */
  lemma {:induction false} EventOnRoute(points: seq<real>, threshold: real, window: int, line: Line, k: nat)
    requires DetectSpec(points, threshold, window, line).Ok?
    requires k < |DetectSpec(points, threshold, window, line).value.events|
    ensures DetectSpec(points, threshold, window, line).value.events[k].distance <= line.routeLength
  {
    DetectionIsTruncation(points, threshold, window, line);
    CutEventOnRoute(DetectSpec(points, threshold, window, line).value.events, Candidates(points, threshold, window),
                    points, Median(Tail(points)), threshold, line, k);
  }

  lemma CutEventOnRoute(events: seq<DetectedEvent>, merged: seq<Peak>, points: seq<real>, noise: real, threshold: real, line: Line, k: nat)
    requires InTrace(merged, |points|) && threshold > 0.0 && line.Convertible()
    requires IsCutAtRouteEnd(events, merged, |merged|, points, noise, threshold, line) && k < |events|
    ensures events[k].distance <= line.routeLength
  {
  }

  lemma CandidateIsLargeStep(points: seq<real>, threshold: real, window: int, p: Peak)
    requires p in Candidates(points, threshold, window)
    ensures 0 < p.index < |points| && Abs(Delta(points, p.index)) >= threshold && p == PeakAt(points, p.index)
  {
    var peaks := PeaksUpTo(points, threshold, |points|);
    PeaksAreExactlyTheLargeSteps(points, threshold, |points|);
    MergeFromMembers(peaks[0], peaks[1..], window);
    assert p in peaks;
  }

  // ----- the whole pipeline -----

  /** The filter followed by detection, as the service runs them. */
  ghost function PipelineSpec(raw: seq<real>, denoiseWindow: int, threshold: real, mergeWindow: int, line: Line): Result<Detection> {
    match Denoise.MovingMedianSpec(raw, denoiseWindow)
    case Err(e) => Err(e)
    case Ok(filtered) => DetectSpec(filtered, threshold, mergeWindow, line)
  }

  lemma {:induction false} NoLargeStepsNoPeaks(points: seq<real>, d: real, threshold: real, n: nat)
    requires n <= |points| && StepsWithin(points, d) && d < threshold
    ensures PeaksUpTo(points, threshold, n) == []
  {
    if n > 1 {
      NoLargeStepsNoPeaks(points, d, threshold, n - 1);
    }
  }

  /** A raw trace whose largest step is below the threshold yields no events and no rejections. */
  lemma {:induction false} QuietTraceHasNoEvents(raw: seq<real>, denoiseWindow: int, threshold: real, mergeWindow: int, line: Line)
    requires Denoise.LargestStep(raw) < threshold
    requires PipelineSpec(raw, denoiseWindow, threshold, mergeWindow, line).Ok?
    ensures PipelineSpec(raw, denoiseWindow, threshold, mergeWindow, line).value == Detection([], 0)
  {
    var filtered := Denoise.Filtered(raw, Denoise.Half(denoiseWindow));
    Denoise.DenoisingNeverSharpens(raw, Denoise.Half(denoiseWindow));
    QuietFilteredTrace(filtered, threshold, mergeWindow, line);
  }

  lemma QuietFilteredTrace(points: seq<real>, threshold: real, mergeWindow: int, line: Line)
    requires Denoise.LargestStep(points) < threshold && DetectSpec(points, threshold, mergeWindow, line).Ok?
    ensures DetectSpec(points, threshold, mergeWindow, line).value == Detection([], 0)
  {
    var d := Denoise.LargestStep(points);
    Denoise.LargestStepIff(points, d);
    NoLargeStepsNoPeaks(points, d, threshold, |points|);
  }

  lemma {:induction false} PeaksShift(points: seq<real>, raised: seq<real>, c: real, threshold: real, n: nat)
    requires n <= |points| && IsShift(points, raised, c)
    ensures PeaksUpTo(raised, threshold, n) == PeaksUpTo(points, threshold, n)
  {
    if n > 1 {
      PeaksShift(points, raised, c, threshold, n - 1);
      assert Delta(raised, n - 1) == Delta(points, n - 1);
    }
  }

  lemma {:induction false} EventsShift(peaks: seq<Peak>, n: nat, points: seq<real>, raised: seq<real>, c: real, noise: real, threshold: real, line: Line)
    requires n <= |peaks| && InTrace(peaks, |points|) && threshold > 0.0 && line.Convertible()
    requires IsShift(points, raised, c)
    ensures EventsUpTo(peaks, n, raised, noise + c, threshold, line) == EventsUpTo(peaks, n, points, noise, threshold, line)
  {
    if n > 0 {
      EventsShift(peaks, n - 1, points, raised, c, noise, threshold, line);
      var p := peaks[n - 1];
      var before, after := points[p.index - 1], points[p.index];
      assert raised[p.index - 1] == before + c && raised[p.index] == after + c;
      assert Min(before + c, after + c) - (noise + c) == Min(before, after) - noise;
    }
  }

  lemma NoiseShifts(points: seq<real>, raised: seq<real>, c: real)
    requires points != [] && IsShift(points, raised, c)
    ensures Median(Tail(raised)) == Median(Tail(points)) + c
  {
    MedianShift(Tail(points), Tail(raised), c);
  }

  lemma CandidatesShift(points: seq<real>, raised: seq<real>, c: real, threshold: real, window: int)
    requires IsShift(points, raised, c)
    ensures Candidates(raised, threshold, window) == Candidates(points, threshold, window)
  {
    PeaksShift(points, raised, c, threshold, |points|);
  }

  lemma DetectShift(points: seq<real>, raised: seq<real>, c: real, threshold: real, window: int, line: Line)
    requires IsShift(points, raised, c)
    ensures DetectSpec(raised, threshold, window, line) == DetectSpec(points, threshold, window, line)
  {
    CandidatesShift(points, raised, c, threshold, window);
    var merged := Candidates(points, threshold, window);
    if |points| >= 16 && threshold > 0.0 && line.Convertible() {
      NoiseShifts(points, raised, c);
      EventsShift(merged, |merged|, points, raised, c, Median(Tail(points)), threshold, line);
    }
  }

  /**
   A constant offset of the raw trace is invisible in the outcome: the same error, or the
   same events with the same figures and the same rejections; the noise floor moves with it.
   */
  lemma {:induction false} OffsetInvariance(raw: seq<real>, c: real, denoiseWindow: int, threshold: real, mergeWindow: int, line: Line)
    ensures PipelineSpec(Shift(raw, c), denoiseWindow, threshold, mergeWindow, line)
            == PipelineSpec(raw, denoiseWindow, threshold, mergeWindow, line)
    ensures Denoise.Accepted(raw, denoiseWindow) ==>
              Median(Tail(Denoise.Filtered(Shift(raw, c), Denoise.Half(denoiseWindow))))
              == Median(Tail(Denoise.Filtered(raw, Denoise.Half(denoiseWindow)))) + c
  {
    if Denoise.Accepted(raw, denoiseWindow) {
      var half := Denoise.Half(denoiseWindow);
      var filtered, raised := Denoise.Filtered(raw, half), Denoise.Filtered(Shift(raw, c), half);
      Denoise.FilteringShifts(raw, Shift(raw, c), half, c);
      NoiseShifts(filtered, raised, c);
      DetectShift(filtered, raised, c, threshold, mergeWindow, line);
    }
  }
}
