/** algorithm/compare.go: greedy nearest matching, the difference list and the primary difference. */
module Compare {
  import opened Results
  import opened Reals

  /** math.MaxFloat64, the starting value of the nearest-candidate search. */
  const MAX_FLOAT64: real := 179769313486231570814527423731704356798070567525844996598917476803157260780028538760589558632766878171540458953514382464234321326889464182768467546703537516986049910576551282076245490090389328944075868508455133942304583236903222948165808559332123347764797926204144723168738177180919299881250404026184124858368.0

  datatype ComparableEvent = ComparableEvent(id: nat, distance: real, insertionLoss: real, confidence: real)

  datatype Kind = Disappeared | LossIncreased | New {
    /** The order of the kinds as Go strings. */
    function Rank(): int {
      match this
      case Disappeared => 0
      case LossIncreased => 1
      case New => 2
    }
  }

  datatype Difference = Difference(
    kind: Kind, baselineId: Option<nat>, currentId: Option<nat>, distance: real, lossDelta: real, confidence: real)

  // ----- matching -----

  function Apart(base: ComparableEvent, candidate: ComparableEvent): real {
    Abs(base.distance - candidate.distance)
  }

  /** Whether the search would take the candidate if it were the only one. */
  predicate Near(base: ComparableEvent, candidate: ComparableEvent, tolerance: real) {
    Apart(base, candidate) <= tolerance && Apart(base, candidate) < MAX_FLOAT64
  }

  /** What the search has found after n candidates; -1 while it has found nothing. */
  function NearestUpTo(base: ComparableEvent, current: seq<ComparableEvent>, used: set<int>, tolerance: real, n: nat): (m: int)
    requires n <= |current|
    ensures -1 <= m < n
  {
    if n == 0 then -1
    else
      var m := NearestUpTo(base, current, used, tolerance, n - 1);
      var delta := Apart(base, current[n - 1]);
      if n - 1 !in used && delta <= tolerance && delta < (if m < 0 then MAX_FLOAT64 else Apart(base, current[m]))
      then n - 1 else m
  }

  function UsedBy(matches: seq<int>): set<int> {
    set m | m in matches && m >= 0
  }

  /** Every match is -1 or the index of a current event. */
  predicate InRange(matches: seq<int>, current: seq<ComparableEvent>) {
    forall i :: 0 <= i < |matches| ==> -1 <= matches[i] < |current|
  }

  /** For each of the first n baseline events its match in current, or -1. */
  function MatchesUpTo(baseline: seq<ComparableEvent>, current: seq<ComparableEvent>, tolerance: real, n: nat): (matches: seq<int>)
    requires n <= |baseline|
    ensures |matches| == n && InRange(matches, current)
  {
    if n == 0 then []
    else
      var before := MatchesUpTo(baseline, current, tolerance, n - 1);
      before + [NearestUpTo(baseline[n - 1], current, UsedBy(before), tolerance, |current|)]
  }

  function Matches(baseline: seq<ComparableEvent>, current: seq<ComparableEvent>, tolerance: real): (matches: seq<int>)
    ensures |matches| == |baseline| && InRange(matches, current)
  {
    MatchesUpTo(baseline, current, tolerance, |baseline|)
  }

  // ----- differences -----

  function DisappearedEvent(base: ComparableEvent): Difference {
    Difference(Disappeared, Some(base.id), None, base.distance, 0.0, Round3(base.confidence * 0.9))
  }

  function LossIncrease(base: ComparableEvent, candidate: ComparableEvent): Difference {
    Difference(LossIncreased, Some(base.id), Some(candidate.id), candidate.distance,
               Round3(candidate.insertionLoss - base.insertionLoss), Round3(Min(base.confidence, candidate.confidence)))
  }

  function NewEvent(candidate: ComparableEvent): Difference {
    Difference(New, None, Some(candidate.id), candidate.distance, candidate.insertionLoss, Round3(candidate.confidence))
  }

  /** What one baseline event contributes. */
  function FromBaseline(base: ComparableEvent, current: seq<ComparableEvent>, match_: int, lossIncrease: real): seq<Difference>
    requires match_ < |current|
  {
    if match_ < 0 then [DisappearedEvent(base)]
    else if current[match_].insertionLoss - base.insertionLoss >= lossIncrease then [LossIncrease(base, current[match_])]
    else []
  }

  /** What each baseline event contributes, in order. */
  function Contributions(baseline: seq<ComparableEvent>, current: seq<ComparableEvent>, matches: seq<int>, lossIncrease: real): (parts: seq<seq<Difference>>)
    requires |matches| == |baseline| && InRange(matches, current)
    ensures |parts| == |baseline|
  {
    seq(|baseline|, i requires 0 <= i < |baseline| => FromBaseline(baseline[i], current, matches[i], lossIncrease))
  }

  function Flatten(parts: seq<seq<Difference>>): seq<Difference> {
    if parts == [] then [] else Flatten(parts[..|parts| - 1]) + parts[|parts| - 1]
  }

  function NewUpTo(current: seq<ComparableEvent>, used: set<int>, n: nat): seq<Difference>
    requires n <= |current|
  {
    if n == 0 then []
    else NewUpTo(current, used, n - 1) + if n - 1 in used then [] else [NewEvent(current[n - 1])]
  }

  /** The differences before they are sorted. */
  function Unsorted(baseline: seq<ComparableEvent>, current: seq<ComparableEvent>, tolerance: real, lossIncrease: real): seq<Difference> {
    var matches := Matches(baseline, current, tolerance);
    Flatten(Contributions(baseline, current, matches, lossIncrease)) + NewUpTo(current, UsedBy(matches), |current|)
  }

  // ----- the unstable sort -----

  /** The comparison given to sort.Slice. */
  predicate Less(a: Difference, b: Difference) {
    if a.distance == b.distance then a.kind.Rank() < b.kind.Rank() else a.distance < b.distance
  }

  ghost predicate SortedByPosition(ds: seq<Difference>) {
    forall i, j :: 0 <= i < j < |ds| ==> !Less(ds[j], ds[i])
  }

  /** Everything sort.Slice may return: it is not stable, so any sorted permutation. */
  ghost predicate SortedPermutation(ds: seq<Difference>, of: seq<Difference>) {
    SortedByPosition(ds) && multiset(ds) == multiset(of)
  }

  function InsertByPosition(d: Difference, ds: seq<Difference>): seq<Difference> {
    if ds == [] || !Less(ds[0], d) then [d] + ds else [ds[0]] + InsertByPosition(d, ds[1..])
  }

  lemma {:induction false} InsertAdds(d: Difference, ds: seq<Difference>)
    ensures multiset(InsertByPosition(d, ds)) == multiset(ds) + multiset{d}
  {
    if ds != [] && Less(ds[0], d) {
      InsertAdds(d, ds[1..]);
      assert ds == [ds[0]] + ds[1..];
    }
  }

  ghost predicate NotAfter(first: Difference, ds: seq<Difference>) {
    forall i :: 0 <= i < |ds| ==> !Less(ds[i], first)
  }

  lemma {:induction false} InsertKeepsFirst(first: Difference, d: Difference, ds: seq<Difference>)
    requires NotAfter(first, ds) && !Less(d, first)
    ensures NotAfter(first, InsertByPosition(d, ds))
  {
    if ds != [] && Less(ds[0], d) {
      InsertKeepsFirst(first, d, ds[1..]);
    }
  }

  lemma {:induction false} InsertSorted(d: Difference, ds: seq<Difference>)
    requires SortedByPosition(ds)
    ensures SortedByPosition(InsertByPosition(d, ds))
  {
    if ds != [] {
      if Less(ds[0], d) {
        InsertSorted(d, ds[1..]);
        InsertKeepsFirst(ds[0], d, ds[1..]);
      }
    }
  }

  /** sort.Slice: callers learn only that the result is some sorted permutation. */
  method SortSlice(ds: seq<Difference>) returns (sorted: seq<Difference>)
    ensures SortedPermutation(sorted, ds)
  {
    sorted := [];
    for i := 0 to |ds|
      invariant SortedPermutation(sorted, ds[..i])
    {
      InsertSorted(ds[i], sorted);
      InsertAdds(ds[i], sorted);
      sorted := InsertByPosition(ds[i], sorted);
      assert ds[..i + 1] == ds[..i] + [ds[i]];
    }
    assert ds[..|ds|] == ds;
  }

  // ----- the comparison -----

  /** The argument checks of CompareBaseline. */
  function ArgumentError(tolerance: real, lossIncrease: real): Option<string> {
    if tolerance <= 0.0 then Some("distance tolerance must be positive")
    else if lossIncrease <= 0.0 then Some("loss increase threshold must be positive")
    else None
  }

  method FindNearest(base: ComparableEvent, current: seq<ComparableEvent>, used: set<int>, tolerance: real) returns (match_: int)
    ensures match_ == NearestUpTo(base, current, used, tolerance, |current|)
  {
    match_ := -1;
    var best := MAX_FLOAT64;
    for i := 0 to |current|
      invariant match_ == NearestUpTo(base, current, used, tolerance, i)
      invariant best == if match_ < 0 then MAX_FLOAT64 else Apart(base, current[match_])
    {
      if i in used {
        continue;
      }
      var delta := Abs(base.distance - current[i].distance);
      if delta <= tolerance && delta < best {
        match_, best := i, delta;
      }
    }
  }

  /** What the first loop of CompareBaseline appends for one baseline event and its match. */
  method Contribution(base: ComparableEvent, current: seq<ComparableEvent>, match_: int, lossIncrease: real) returns (part: seq<Difference>)
    requires match_ < |current|
    ensures part == FromBaseline(base, current, match_, lossIncrease)
  {
    if match_ < 0 {
      return [Difference(Disappeared, Some(base.id), None, base.distance, 0.0, Round3(base.confidence * 0.9))];
    }
    var candidate := current[match_];
    var lossDelta := candidate.insertionLoss - base.insertionLoss;
    if lossDelta >= lossIncrease {
      return [Difference(LossIncreased, Some(base.id), Some(candidate.id), candidate.distance,
                         Round3(lossDelta), Round3(Min(base.confidence, candidate.confidence)))];
    }
    return [];
  }

  /** The first loop of CompareBaseline: match every baseline event in turn. */
  method MatchBaseline(baseline: seq<ComparableEvent>, current: seq<ComparableEvent>, tolerance: real, lossIncrease: real)
    returns (used: set<int>, differences: seq<Difference>)
    ensures var matches := Matches(baseline, current, tolerance);
            used == UsedBy(matches) && differences == Flatten(Contributions(baseline, current, matches, lossIncrease))
  {
    ghost var matches := Matches(baseline, current, tolerance);
    ghost var parts := Contributions(baseline, current, matches, lossIncrease);
    used, differences := {}, [];
    for n := 0 to |baseline|
      invariant used == UsedBy(matches[..n])
      invariant differences == Flatten(parts[..n])
    {
      MatchAt(baseline, current, tolerance, n);
      UsedByExtend(matches, n);
      assert parts[..n + 1][..n] == parts[..n];
      var base := baseline[n];
      var match_ := FindNearest(base, current, used, tolerance);
      var part := Contribution(base, current, match_, lossIncrease);
      differences := differences + part;
      if match_ >= 0 {
        used := used + {match_};
      }
    }
    assert matches[..|baseline|] == matches && parts[..|baseline|] == parts;
  }

  // ----- what a difference says -----

  /** A baseline event without a partner: its place, no loss, nine tenths of its confidence. */
  ghost predicate IsDisappeared(d: Difference, base: ComparableEvent) {
    && d.kind == Disappeared && d.baselineId == Some(base.id) && d.currentId == None
    && d.distance == base.distance && d.lossDelta == 0.0
    && d.confidence == Round3(0.9 * base.confidence)
  }

  /** A pair within tolerance whose loss has grown enough: the current event's place, the growth, the lower confidence. */
  ghost predicate IsLossIncrease(d: Difference, base: ComparableEvent, candidate: ComparableEvent, tolerance: real, lossIncrease: real) {
    && -tolerance <= candidate.distance - base.distance <= tolerance
    && candidate.insertionLoss - base.insertionLoss >= lossIncrease
    && d.kind == LossIncreased && d.baselineId == Some(base.id) && d.currentId == Some(candidate.id)
    && d.distance == candidate.distance && d.lossDelta == Round3(candidate.insertionLoss - base.insertionLoss)
    && d.confidence == Round3(if candidate.confidence < base.confidence then candidate.confidence else base.confidence)
  }

  /** A current event without a partner: its place, its own loss and confidence. */
  ghost predicate IsNew(d: Difference, candidate: ComparableEvent) {
    && d.kind == New && d.baselineId == None && d.currentId == Some(candidate.id)
    && d.distance == candidate.distance && d.lossDelta == candidate.insertionLoss
    && d.confidence == Round3(candidate.confidence)
  }

  ghost predicate Explained(d: Difference, baseline: seq<ComparableEvent>, current: seq<ComparableEvent>, tolerance: real, lossIncrease: real) {
    || (exists i :: 0 <= i < |baseline| && IsDisappeared(d, baseline[i]))
    || (exists i, c :: 0 <= i < |baseline| && 0 <= c < |current| && IsLossIncrease(d, baseline[i], current[c], tolerance, lossIncrease))
    || (exists c :: 0 <= c < |current| && IsNew(d, current[c]))
  }

  /** By distance, and at the same distance disappeared before loss_increased before new. */
  ghost predicate InOrder(ds: seq<Difference>) {
    forall i, j :: 0 <= i < j < |ds| ==>
      || ds[i].distance < ds[j].distance
      || (ds[i].distance == ds[j].distance && (ds[i].kind == Disappeared || ds[j].kind == New || ds[i].kind == ds[j].kind))
  }

  lemma SortedIsInOrder(ds: seq<Difference>)
    requires SortedByPosition(ds)
    ensures InOrder(ds)
  {
    forall i, j | 0 <= i < j < |ds|
      ensures || ds[i].distance < ds[j].distance
              || (ds[i].distance == ds[j].distance && (ds[i].kind == Disappeared || ds[j].kind == New || ds[i].kind == ds[j].kind))
    {
      assert !Less(ds[j], ds[i]);
    }
  }

  lemma {:induction false} FlattenMember(parts: seq<seq<Difference>>, d: Difference) returns (i: nat)
    requires d in Flatten(parts)
    ensures i < |parts| && d in parts[i]
  {
    var last := |parts| - 1;
    if d in parts[last] {
      i := last;
    } else {
      i := FlattenMember(parts[..last], d);
    }
  }

  lemma {:induction false} NewMember(current: seq<ComparableEvent>, used: set<int>, n: nat, d: Difference)
    requires n <= |current|
    ensures d in NewUpTo(current, used, n) <==> exists c :: 0 <= c < n && c !in used && d == NewEvent(current[c])
  {
    if n > 0 {
      NewMember(current, used, n - 1, d);
    }
  }

  lemma PartsMember(ds: seq<Difference>, a: seq<Difference>, b: seq<Difference>, d: Difference)
    requires multiset(ds) == multiset(a + b)
    ensures d in ds <==> d in a || d in b
  {
    assert d in ds <==> d in multiset(ds);
    assert d in a + b <==> d in multiset(a + b);
  }

  lemma {:induction false} NearestIsNear(base: ComparableEvent, current: seq<ComparableEvent>, used: set<int>, tolerance: real, n: nat)
    requires n <= |current|
    ensures var m := NearestUpTo(base, current, used, tolerance, n); m >= 0 ==> Near(base, current[m], tolerance)
  {
    if n > 0 {
      NearestIsNear(base, current, used, tolerance, n - 1);
    }
  }

  lemma ContributionExplained(d: Difference, i: nat, baseline: seq<ComparableEvent>, current: seq<ComparableEvent>, tolerance: real, lossIncrease: real)
    requires i < |baseline| && d in FromBaseline(baseline[i], current, Matches(baseline, current, tolerance)[i], lossIncrease)
    ensures Explained(d, baseline, current, tolerance, lossIncrease)
  {
    var matches := Matches(baseline, current, tolerance);
    MatchAt(baseline, current, tolerance, i);
    NearestIsNear(baseline[i], current, UsedBy(matches[..i]), tolerance, |current|);
    if matches[i] < 0 {
      assert IsDisappeared(d, baseline[i]);
    } else {
      assert IsLossIncrease(d, baseline[i], current[matches[i]], tolerance, lossIncrease);
    }
  }

  lemma EachExplained(ds: seq<Difference>, baseline: seq<ComparableEvent>, current: seq<ComparableEvent>, tolerance: real, lossIncrease: real, d: Difference)
    requires SortedPermutation(ds, Unsorted(baseline, current, tolerance, lossIncrease)) && d in ds
    ensures Explained(d, baseline, current, tolerance, lossIncrease)
  {
    var matches := Matches(baseline, current, tolerance);
    var parts := Contributions(baseline, current, matches, lossIncrease);
    PartsMember(ds, Flatten(parts), NewUpTo(current, UsedBy(matches), |current|), d);
    if d in Flatten(parts) {
      var i := FlattenMember(parts, d);
      ContributionExplained(d, i, baseline, current, tolerance, lossIncrease);
    } else {
      NewMember(current, UsedBy(matches), |current|, d);
      var c :| 0 <= c < |current| && c !in UsedBy(matches) && d == NewEvent(current[c]);
      assert IsNew(d, current[c]);
    }
  }

  method CompareBaseline(baseline: seq<ComparableEvent>, current: seq<ComparableEvent>, tolerance: real, lossIncrease: real)
    returns (r: Result<seq<Difference>>)
    ensures ArgumentError(tolerance, lossIncrease).Some? ==> r == Err(ArgumentError(tolerance, lossIncrease).value)
    ensures ArgumentError(tolerance, lossIncrease).None? ==>
              r.Ok? && SortedPermutation(r.value, Unsorted(baseline, current, tolerance, lossIncrease))
    ensures r.Ok? <==> tolerance > 0.0 && lossIncrease > 0.0
    ensures r.Ok? ==> InOrder(r.value) && forall d :: d in r.value ==> Explained(d, baseline, current, tolerance, lossIncrease)
  {
    if tolerance <= 0.0 {
      return Err("distance tolerance must be positive");
    }
    if lossIncrease <= 0.0 {
      return Err("loss increase threshold must be positive");
    }
    var used, differences := MatchBaseline(baseline, current, tolerance, lossIncrease);
    ghost var fromBaseline := differences;
    for i := 0 to |current|
      invariant differences == fromBaseline + NewUpTo(current, used, i)
    {
      if i in used {
        continue;
      }
      var candidate := current[i];
      differences := differences + [Difference(New, None, Some(candidate.id), candidate.distance, candidate.insertionLoss, Round3(candidate.confidence))];
    }
    var sorted := SortSlice(differences);
    SortedIsInOrder(sorted);
    forall d | d in sorted
      ensures Explained(d, baseline, current, tolerance, lossIncrease)
    {
      EachExplained(sorted, baseline, current, tolerance, lossIncrease, d);
    }
    return Ok(sorted);
  }

  lemma {:induction false} MatchesPrefix(baseline: seq<ComparableEvent>, current: seq<ComparableEvent>, tolerance: real, n: nat, m: nat)
    requires n <= m <= |baseline|
    ensures MatchesUpTo(baseline, current, tolerance, m)[..n] == MatchesUpTo(baseline, current, tolerance, n)
  {
    if n < m {
      MatchesPrefix(baseline, current, tolerance, n, m - 1);
    }
  }

  lemma MatchAt(baseline: seq<ComparableEvent>, current: seq<ComparableEvent>, tolerance: real, n: nat)
    requires n < |baseline|
    ensures var matches := Matches(baseline, current, tolerance);
            && MatchesUpTo(baseline, current, tolerance, n) == matches[..n]
            && matches[n] == NearestUpTo(baseline[n], current, UsedBy(matches[..n]), tolerance, |current|)
  {
    MatchesPrefix(baseline, current, tolerance, n + 1, |baseline|);
    MatchesPrefix(baseline, current, tolerance, n, |baseline|);
  }

  lemma UsedByExtend(matches: seq<int>, n: nat)
    requires n < |matches|
    ensures UsedBy(matches[..n + 1]) == UsedBy(matches[..n]) + if matches[n] < 0 then {} else {matches[n]}
  {
    assert matches[..n + 1] == matches[..n] + [matches[n]];
  }

  // ----- the primary difference -----

  /** The replacement rule of PrimaryDifference. */
  predicate Replaces(challenger: Difference, best: Difference) {
    challenger.confidence > best.confidence || (challenger.kind.LossIncreased? && !best.kind.LossIncreased?)
  }

  function Winner(ds: seq<Difference>): Difference
    requires ds != []
  {
    if |ds| == 1 then ds[0]
    else
      var best := Winner(ds[..|ds| - 1]);
      var last := ds[|ds| - 1];
      if Replaces(last, best) then last else best
  }

  function Uncertainty(confidence: real): real { Max(1.0, 20.0 * (1.0 - confidence)) }

  datatype Estimate = Estimate(distance: real, uncertainty: real)

  function Primary(ds: seq<Difference>): Option<Estimate> {
    if ds == [] then None else Some(Estimate(Winner(ds).distance, Uncertainty(Winner(ds).confidence)))
  }

  method PrimaryDifference(ds: seq<Difference>) returns (r: Option<Estimate>)
    ensures r == Primary(ds)
  {
    if |ds| == 0 {
      return None;
    }
    var best := ds[0];
    for i := 1 to |ds|
      invariant best == Winner(ds[..i])
    {
      assert ds[..i + 1][..i] == ds[..i];
      var difference := ds[i];
      if difference.confidence > best.confidence || (difference.kind.LossIncreased? && !best.kind.LossIncreased?) {
        best := difference;
      }
    }
    assert ds[..|ds|] == ds;
    return Some(Estimate(best.distance, Max(1.0, 20.0 * (1.0 - best.confidence))));
  }
}
