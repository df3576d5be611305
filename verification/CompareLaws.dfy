/** What the greedy matching, the difference list and the primary estimate guarantee. */
module CompareLaws {
  import opened Results
  import opened Reals
  import opened Compare
  import opened Collections

  // ----- the nearest candidate -----

  /** A candidate the search may take. */
  ghost predicate Eligible(base: ComparableEvent, current: seq<ComparableEvent>, used: set<int>, tolerance: real, i: int) {
    0 <= i < |current| && i !in used && Near(base, current[i], tolerance)
  }

  /** m is the nearest eligible candidate among the first n, the lowest index winning ties; -1 exactly when there is none. */
  ghost predicate IsNearest(base: ComparableEvent, current: seq<ComparableEvent>, used: set<int>, tolerance: real, n: nat, m: int) {
    if m < 0 then forall i :: 0 <= i < n ==> !Eligible(base, current, used, tolerance, i)
    else
      && m < n && Eligible(base, current, used, tolerance, m)
      && forall i :: 0 <= i < n && Eligible(base, current, used, tolerance, i) ==>
           && Apart(base, current[m]) <= Apart(base, current[i])
           && (i < m ==> Apart(base, current[m]) < Apart(base, current[i]))
  }

  lemma {:induction false} SearchFindsNearest(base: ComparableEvent, current: seq<ComparableEvent>, used: set<int>, tolerance: real, n: nat)
    requires n <= |current|
    ensures IsNearest(base, current, used, tolerance, n, NearestUpTo(base, current, used, tolerance, n))
  {
    if n > 0 {
      SearchFindsNearest(base, current, used, tolerance, n - 1);
    }
  }

  /** Each baseline event is matched to the nearest candidate that no earlier baseline event has taken. */
  lemma EachMatchIsNearestLeft(baseline: seq<ComparableEvent>, current: seq<ComparableEvent>, tolerance: real, i: nat)
    requires i < |baseline|
    ensures var matches := Matches(baseline, current, tolerance);
            IsNearest(baseline[i], current, UsedBy(matches[..i]), tolerance, |current|, matches[i])
  {
    MatchAt(baseline, current, tolerance, i);
    SearchFindsNearest(baseline[i], current, UsedBy(Matches(baseline, current, tolerance)[..i]), tolerance, |current|);
  }

  lemma NearestIsUnique(base: ComparableEvent, current: seq<ComparableEvent>, used: set<int>, tolerance: real, m: int, k: int)
    requires IsNearest(base, current, used, tolerance, |current|, m) && IsNearest(base, current, used, tolerance, |current|, k)
    requires m >= -1 && k >= -1
    ensures m == k
  {
  }

  /** Where a baseline event would be matched if it came first. */
  function FirstChoice(base: ComparableEvent, current: seq<ComparableEvent>, tolerance: real): int {
    NearestUpTo(base, current, {}, tolerance, |current|)
  }

  /** What the first choice is: the nearest of all current events within tolerance, ties to the lowest index. */
  lemma FirstChoiceIsNearest(base: ComparableEvent, current: seq<ComparableEvent>, tolerance: real)
    ensures IsNearest(base, current, {}, tolerance, |current|, FirstChoice(base, current, tolerance))
  {
    SearchFindsNearest(base, current, {}, tolerance, |current|);
  }

  lemma FreeChoiceIsNearest(base: ComparableEvent, current: seq<ComparableEvent>, used: set<int>, tolerance: real, m: int)
    requires IsNearest(base, current, {}, tolerance, |current|, m) && (m < 0 || m !in used)
    ensures IsNearest(base, current, used, tolerance, |current|, m)
  {
    forall i | 0 <= i < |current| && Eligible(base, current, used, tolerance, i)
      ensures Eligible(base, current, {}, tolerance, i)
    {
    }
  }

  /**
   Exactly when a baseline event is matched to the nearest of all current events: when no earlier
   baseline event has taken that one.
   */
  lemma NearestOfAllIff(baseline: seq<ComparableEvent>, current: seq<ComparableEvent>, tolerance: real, i: nat)
    requires i < |baseline|
    ensures var matches := Matches(baseline, current, tolerance);
            var choice := FirstChoice(baseline[i], current, tolerance);
            matches[i] == choice <==> choice < 0 || choice !in UsedBy(matches[..i])
  {
    var matches, choice := Matches(baseline, current, tolerance), FirstChoice(baseline[i], current, tolerance);
    EachMatchIsNearestLeft(baseline, current, tolerance, i);
    SearchFindsNearest(baseline[i], current, {}, tolerance, |current|);
    if choice < 0 || choice !in UsedBy(matches[..i]) {
      FreeChoiceIsNearest(baseline[i], current, UsedBy(matches[..i]), tolerance, choice);
      NearestIsUnique(baseline[i], current, UsedBy(matches[..i]), tolerance, matches[i], choice);
    }
  }

  /** Taking the baseline in order can part the closest pair: an earlier event takes the partner of a later, nearer one. */
  lemma ClosestPairMayBeParted()
    ensures exists baseline: seq<ComparableEvent>, current: seq<ComparableEvent>, tolerance: real ::
              && |baseline| == 2 && |current| == 1 && Matches(baseline, current, tolerance) == [0, -1]
              && Apart(baseline[1], current[0]) < Apart(baseline[0], current[0])
  {
    var a, b, c := ComparableEvent(1, 100.0, 0.2, 0.9), ComparableEvent(2, 110.0, 0.2, 0.9), ComparableEvent(3, 108.0, 0.2, 0.9);
    var baseline, current := [a, b], [c];
    assert NearestUpTo(a, current, {}, 25.0, 0) == -1;
    assert NearestUpTo(a, current, {}, 25.0, 1) == 0;
    assert MatchesUpTo(baseline, current, 25.0, 0) == [] && UsedBy([]) == {};
    assert MatchesUpTo(baseline, current, 25.0, 1) == [0];
    assert 0 in UsedBy([0]);
    assert NearestUpTo(b, current, UsedBy([0]), 25.0, 0) == -1;
    assert NearestUpTo(b, current, UsedBy([0]), 25.0, 1) == -1;
    assert Matches(baseline, current, 25.0) == [0, -1];
  }

  // ----- one-to-one, maximal, half of optimal -----

  /** No current event is matched twice. */
  lemma MatchingIsOneToOne(baseline: seq<ComparableEvent>, current: seq<ComparableEvent>, tolerance: real, i: nat, j: nat)
    requires i < j < |baseline|
    ensures var matches := Matches(baseline, current, tolerance);
            matches[i] >= 0 ==> matches[i] != matches[j]
  {
    var matches := Matches(baseline, current, tolerance);
    EachMatchIsNearestLeft(baseline, current, tolerance, j);
    assert matches[i] in matches[..j];
  }

  /** No baseline event without a match and current event without a match lie within tolerance. */
  lemma MatchingIsMaximal(baseline: seq<ComparableEvent>, current: seq<ComparableEvent>, tolerance: real, i: nat, c: nat)
    requires i < |baseline| && c < |current|
    ensures var matches := Matches(baseline, current, tolerance);
            matches[i] < 0 && c !in UsedBy(matches) ==> !Near(baseline[i], current[c], tolerance)
  {
    EachMatchIsNearestLeft(baseline, current, tolerance, i);
    var matches := Matches(baseline, current, tolerance);
    assert forall m :: m in UsedBy(matches[..i]) ==> m in UsedBy(matches);
    if matches[i] < 0 && c !in UsedBy(matches) {
      assert !Eligible(baseline[i], current, UsedBy(matches[..i]), tolerance, c);
    }
  }

  /** In metres: leftover events within a million kilometres of each other are more than the tolerance apart. */
  lemma LeftoversAreApart(baseline: seq<ComparableEvent>, current: seq<ComparableEvent>, tolerance: real, i: nat, c: nat)
    requires i < |baseline| && c < |current| && -1000000000.0 <= current[c].distance - baseline[i].distance <= 1000000000.0
    requires Matches(baseline, current, tolerance)[i] < 0 && c !in UsedBy(Matches(baseline, current, tolerance))
    ensures current[c].distance - baseline[i].distance > tolerance || baseline[i].distance - current[c].distance > tolerance
  {
    MatchingIsMaximal(baseline, current, tolerance, i, c);
  }

  /** Which of the first n baseline events have a match. */
  function MatchedUpTo(matches: seq<int>, n: nat): set<int>
    requires n <= |matches|
  {
    set i | 0 <= i < n && matches[i] >= 0
  }

  function Matched(matches: seq<int>): set<int> { MatchedUpTo(matches, |matches|) }

  ghost predicate OneToOne(matches: seq<int>) {
    forall i, j :: 0 <= i < j < |matches| && matches[i] >= 0 ==> matches[i] != matches[j]
  }

  lemma MatchedGrows(matches: seq<int>, n: nat)
    requires n < |matches|
    ensures |MatchedUpTo(matches, n + 1)| == |MatchedUpTo(matches, n)| + if matches[n] < 0 then 0 else 1
  {
    assert MatchedUpTo(matches, n + 1) == MatchedUpTo(matches, n) + if matches[n] < 0 then {} else {n};
  }

  lemma UsedGrows(matches: seq<int>, n: nat)
    requires OneToOne(matches) && n < |matches|
    ensures |UsedBy(matches[..n + 1])| == |UsedBy(matches[..n])| + if matches[n] < 0 then 0 else 1
  {
    UsedByExtend(matches, n);
    assert matches[n] >= 0 ==> matches[n] !in matches[..n];
  }

  lemma {:induction false} MatchedSize(matches: seq<int>, n: nat)
    requires OneToOne(matches) && n <= |matches|
    ensures |MatchedUpTo(matches, n)| == |UsedBy(matches[..n])|
  {
    if n > 0 {
      MatchedSize(matches, n - 1);
      MatchedGrows(matches, n - 1);
      UsedGrows(matches, n - 1);
    }
  }

  lemma GreedyIsOneToOne(baseline: seq<ComparableEvent>, current: seq<ComparableEvent>, tolerance: real)
    ensures OneToOne(Matches(baseline, current, tolerance))
    ensures |Matched(Matches(baseline, current, tolerance))| == |UsedBy(Matches(baseline, current, tolerance))|
  {
    var matches := Matches(baseline, current, tolerance);
    forall i, j | 0 <= i < j < |baseline| && matches[i] >= 0
      ensures matches[i] != matches[j]
    {
      MatchingIsOneToOne(baseline, current, tolerance, i, j);
    }
    MatchedSize(matches, |baseline|);
    assert matches[..|matches|] == matches;
  }

  /** Any pairing of baseline with current events within tolerance that uses no event twice. */
  ghost predicate Pairing(pairs: map<int, int>, baseline: seq<ComparableEvent>, current: seq<ComparableEvent>, tolerance: real) {
    && (forall b :: b in pairs ==> 0 <= b < |baseline| && 0 <= pairs[b] < |current| && Near(baseline[b], current[pairs[b]], tolerance))
    && (forall b, c :: b in pairs && c in pairs && b != c ==> pairs[b] != pairs[c])
  }

  /** No two baseline events want the same current event. */
  predicate ChoicesDistinct(baseline: seq<ComparableEvent>, current: seq<ComparableEvent>, tolerance: real) {
    forall i, j :: 0 <= i < j < |baseline| ==>
      FirstChoice(baseline[i], current, tolerance) < 0
      || FirstChoice(baseline[i], current, tolerance) != FirstChoice(baseline[j], current, tolerance)
  }

  lemma {:induction false} DistinctChoicesAreMet(baseline: seq<ComparableEvent>, current: seq<ComparableEvent>, tolerance: real, n: nat)
    requires ChoicesDistinct(baseline, current, tolerance) && n <= |baseline|
    ensures forall i :: 0 <= i < n ==> Matches(baseline, current, tolerance)[i] == FirstChoice(baseline[i], current, tolerance)
  {
    if n > 0 {
      DistinctChoicesAreMet(baseline, current, tolerance, n - 1);
      NearestOfAllIff(baseline, current, tolerance, n - 1);
    }
  }

  /**
   Every baseline event is matched to the nearest of all current events if and only if no two of
   them have the same nearest one.
   */
  lemma AllNearestIff(baseline: seq<ComparableEvent>, current: seq<ComparableEvent>, tolerance: real)
    ensures (forall i :: 0 <= i < |baseline| ==> Matches(baseline, current, tolerance)[i] == FirstChoice(baseline[i], current, tolerance))
            <==> ChoicesDistinct(baseline, current, tolerance)
  {
    if ChoicesDistinct(baseline, current, tolerance) {
      DistinctChoicesAreMet(baseline, current, tolerance, |baseline|);
    } else {
      GreedyIsOneToOne(baseline, current, tolerance);
    }
  }

  /** The greedy matching is at least half as large as any pairing within tolerance. */
  lemma GreedyIsHalfOptimal(baseline: seq<ComparableEvent>, current: seq<ComparableEvent>, tolerance: real, pairs: map<int, int>)
    requires Pairing(pairs, baseline, current, tolerance)
    ensures |pairs| <= 2 * |Matched(Matches(baseline, current, tolerance))|
  {
    var matches := Matches(baseline, current, tolerance);
    GreedyIsOneToOne(baseline, current, tolerance);
    var kept := pairs.Keys * Matched(matches);
    var lost := pairs.Keys - Matched(matches);
    forall b | b in lost
      ensures pairs[b] in UsedBy(matches)
    {
      MatchingIsMaximal(baseline, current, tolerance, b, pairs[b]);
    }
    InjectionSize(lost, pairs, UsedBy(matches));
    SubsetSize(kept, Matched(matches));
    assert pairs.Keys == kept + lost && |pairs| == |pairs.Keys|;
  }

  // ----- counting differences -----

  datatype Test = OfKind(kind: Kind) | NamesBaseline(id: nat) | NamesCurrent(id: nat) {
    predicate Holds(d: Difference) {
      match this
      case OfKind(k) => d.kind == k
      case NamesBaseline(id) => d.baselineId == Some(id)
      case NamesCurrent(id) => d.currentId == Some(id)
    }
  }

  function Count(ds: seq<Difference>, test: Test): nat {
    if ds == [] then 0 else (if test.Holds(ds[0]) then 1 else 0) + Count(ds[1..], test)
  }

  lemma {:induction false} CountConcat(a: seq<Difference>, b: seq<Difference>, test: Test)
    ensures Count(a + b, test) == Count(a, test) + Count(b, test)
  {
    if a == [] {
      assert a + b == b;
    } else {
      assert (a + b)[1..] == a[1..] + b;
      CountConcat(a[1..], b, test);
    }
  }

  lemma TakeOut(ds: seq<Difference>, d: Difference, test: Test) returns (rest: seq<Difference>)
    requires d in multiset(ds)
    ensures multiset(rest) == multiset(ds) - multiset{d}
    ensures Count(ds, test) == Count(rest, test) + if test.Holds(d) then 1 else 0
  {
    var j :| 0 <= j < |ds| && ds[j] == d;
    var front, back := ds[..j], ds[j + 1..];
    rest := front + back;
    var tail := [d] + back;
    assert tail[1..] == back;
    assert ds == front + tail;
    CountConcat(front, tail, test);
    CountConcat(front, back, test);
  }

  /** Counts do not depend on the order, so they survive the unstable sort. */
  lemma {:induction false} CountPermutation(a: seq<Difference>, b: seq<Difference>, test: Test)
    requires multiset(a) == multiset(b)
    ensures Count(a, test) == Count(b, test)
    decreases |a|
  {
    if a == [] {
      assert |b| == |multiset(b)| == |multiset(a)| == 0;
    } else {
      assert a == [a[0]] + a[1..];
      assert a[0] in multiset(a);
      var rest := TakeOut(b, a[0], test);
      CountPermutation(a[1..], rest, test);
    }
  }

  /** The count over the first n contributions. */
  function Tally(parts: seq<seq<Difference>>, n: nat, test: Test): nat
    requires n <= |parts|
  {
    if n == 0 then 0 else Tally(parts, n - 1, test) + Count(parts[n - 1], test)
  }

  lemma {:induction false} TallyCounts(parts: seq<seq<Difference>>, n: nat, test: Test)
    requires n <= |parts|
    ensures Count(Flatten(parts[..n]), test) == Tally(parts, n, test)
  {
    if n > 0 {
      TallyCounts(parts, n - 1, test);
      assert parts[..n][..n - 1] == parts[..n - 1];
      CountConcat(Flatten(parts[..n - 1]), parts[n - 1], test);
    }
  }

  function NewTally(current: seq<ComparableEvent>, used: set<int>, n: nat, test: Test): nat
    requires n <= |current|
  {
    if n == 0 then 0
    else NewTally(current, used, n - 1, test) + if n - 1 !in used && test.Holds(NewEvent(current[n - 1])) then 1 else 0
  }

  lemma {:induction false} NewTallyCounts(current: seq<ComparableEvent>, used: set<int>, n: nat, test: Test)
    requires n <= |current|
    ensures Count(NewUpTo(current, used, n), test) == NewTally(current, used, n, test)
  {
    if n > 0 {
      NewTallyCounts(current, used, n - 1, test);
      var one := if n - 1 in used then [] else [NewEvent(current[n - 1])];
      CountConcat(NewUpTo(current, used, n - 1), one, test);
    }
  }

  lemma CountOfParts(ds: seq<Difference>, parts: seq<seq<Difference>>, others: seq<Difference>, test: Test)
    requires multiset(ds) == multiset(Flatten(parts) + others)
    ensures Count(ds, test) == Tally(parts, |parts|, test) + Count(others, test)
  {
    CountPermutation(ds, Flatten(parts) + others, test);
    CountConcat(Flatten(parts), others, test);
    assert parts[..|parts|] == parts;
    TallyCounts(parts, |parts|, test);
  }

  lemma UnsortedParts(ds: seq<Difference>, baseline: seq<ComparableEvent>, current: seq<ComparableEvent>, tolerance: real, lossIncrease: real)
    requires SortedPermutation(ds, Unsorted(baseline, current, tolerance, lossIncrease))
    ensures var matches := Matches(baseline, current, tolerance);
            multiset(ds) == multiset(Flatten(Contributions(baseline, current, matches, lossIncrease)) + NewUpTo(current, UsedBy(matches), |current|))
  {
  }

  /** The count of any sorted permutation of the differences. */
  lemma CountOfResult(ds: seq<Difference>, parts: seq<seq<Difference>>, current: seq<ComparableEvent>, used: set<int>, test: Test)
    requires multiset(ds) == multiset(Flatten(parts) + NewUpTo(current, used, |current|))
    ensures Count(ds, test) == Tally(parts, |parts|, test) + NewTally(current, used, |current|, test)
  {
    CountOfParts(ds, parts, NewUpTo(current, used, |current|), test);
    NewTallyCounts(current, used, |current|, test);
  }

  lemma OneContribution(base: ComparableEvent, current: seq<ComparableEvent>, match_: int, lossIncrease: real, test: Test)
    requires match_ < |current|
    ensures Count(FromBaseline(base, current, match_, lossIncrease), test)
            <= match test
               case OfKind(Disappeared) => if match_ < 0 then 1 else 0
               case OfKind(LossIncreased) => 1
               case OfKind(New) => 0
               case NamesBaseline(id) => if base.id == id then 1 else 0
               case NamesCurrent(id) => if match_ >= 0 && current[match_].id == id then 1 else 0
    ensures test == OfKind(Disappeared) && match_ < 0 ==> Count(FromBaseline(base, current, match_, lossIncrease), test) == 1
  {
  }

  lemma {:induction false} DisappearedCount(baseline: seq<ComparableEvent>, current: seq<ComparableEvent>, matches: seq<int>, lossIncrease: real, n: nat)
    requires n <= |baseline| == |matches| && InRange(matches, current)
    ensures Tally(Contributions(baseline, current, matches, lossIncrease), n, OfKind(Disappeared)) + |MatchedUpTo(matches, n)| == n
    ensures Tally(Contributions(baseline, current, matches, lossIncrease), n, OfKind(New)) == 0
  {
    if n > 0 {
      DisappearedCount(baseline, current, matches, lossIncrease, n - 1);
      MatchedGrows(matches, n - 1);
      OneContribution(baseline[n - 1], current, matches[n - 1], lossIncrease, OfKind(Disappeared));
      OneContribution(baseline[n - 1], current, matches[n - 1], lossIncrease, OfKind(New));
    }
  }

  function UsedBelow(used: set<int>, n: nat): set<int> {
    set c | c in used && 0 <= c < n
  }

  lemma {:induction false} NewCount(current: seq<ComparableEvent>, used: set<int>, n: nat)
    requires n <= |current|
    ensures NewTally(current, used, n, OfKind(New)) + |UsedBelow(used, n)| == n
    ensures NewTally(current, used, n, OfKind(Disappeared)) == 0
  {
    if n > 0 {
      NewCount(current, used, n - 1);
      assert UsedBelow(used, n) == UsedBelow(used, n - 1) + if n - 1 in used then {n - 1} else {};
    }
  }

  /** New minus disappeared is the difference of the two event counts, whatever the tolerance and the sort. */
  lemma DifferenceAccounting(ds: seq<Difference>, baseline: seq<ComparableEvent>, current: seq<ComparableEvent>, tolerance: real, lossIncrease: real)
    requires SortedPermutation(ds, Unsorted(baseline, current, tolerance, lossIncrease))
    ensures Count(ds, OfKind(New)) - Count(ds, OfKind(Disappeared)) == |current| - |baseline|
  {
    var matches := Matches(baseline, current, tolerance);
    GreedyIsOneToOne(baseline, current, tolerance);
    UnsortedParts(ds, baseline, current, tolerance, lossIncrease);
    var parts := Contributions(baseline, current, matches, lossIncrease);
    CountOfResult(ds, parts, current, UsedBy(matches), OfKind(New));
    CountOfResult(ds, parts, current, UsedBy(matches), OfKind(Disappeared));
    DisappearedCount(baseline, current, matches, lossIncrease, |baseline|);
    NewCount(current, UsedBy(matches), |current|);
    assert matches[..|baseline|] == matches;
    assert UsedBy(matches) == UsedBelow(UsedBy(matches), |current|);
  }

  // ----- each event is mentioned at most once -----

  ghost predicate DistinctIds(events: seq<ComparableEvent>) {
    forall i, j :: 0 <= i < j < |events| ==> events[i].id != events[j].id
  }

  lemma {:induction false} BaselineMentions(baseline: seq<ComparableEvent>, current: seq<ComparableEvent>, matches: seq<int>, lossIncrease: real, n: nat, id: nat)
    requires n <= |baseline| == |matches| && InRange(matches, current)
    requires DistinctIds(baseline)
    ensures Tally(Contributions(baseline, current, matches, lossIncrease), n, NamesBaseline(id))
            <= if exists i :: 0 <= i < n && baseline[i].id == id then 1 else 0
  {
    if n > 0 {
      BaselineMentions(baseline, current, matches, lossIncrease, n - 1, id);
      OneContribution(baseline[n - 1], current, matches[n - 1], lossIncrease, NamesBaseline(id));
      if baseline[n - 1].id == id {
        assert !exists i :: 0 <= i < n - 1 && baseline[i].id == id;
      }
    }
  }

  lemma {:induction false} CurrentMentions(baseline: seq<ComparableEvent>, current: seq<ComparableEvent>, matches: seq<int>, lossIncrease: real, n: nat, c: nat)
    requires n <= |baseline| == |matches| && InRange(matches, current) && OneToOne(matches)
    requires c < |current| && DistinctIds(current)
    ensures Tally(Contributions(baseline, current, matches, lossIncrease), n, NamesCurrent(current[c].id))
            <= if exists i :: 0 <= i < n && matches[i] == c then 1 else 0
  {
    if n > 0 {
      CurrentMentions(baseline, current, matches, lossIncrease, n - 1, c);
      OneContribution(baseline[n - 1], current, matches[n - 1], lossIncrease, NamesCurrent(current[c].id));
      if matches[n - 1] == c {
        assert !exists i :: 0 <= i < n - 1 && matches[i] == c;
      }
    }
  }

  lemma {:induction false} NewMentions(current: seq<ComparableEvent>, used: set<int>, n: nat, c: nat)
    requires n <= |current| && c < |current| && DistinctIds(current)
    ensures NewTally(current, used, n, NamesCurrent(current[c].id)) == if c < n && c !in used then 1 else 0
  {
    if n > 0 {
      NewMentions(current, used, n - 1, c);
    }
  }

  lemma {:induction false} NewNamesNoBaseline(current: seq<ComparableEvent>, used: set<int>, n: nat, id: nat)
    requires n <= |current|
    ensures NewTally(current, used, n, NamesBaseline(id)) == 0
  {
    if n > 0 {
      NewNamesNoBaseline(current, used, n - 1, id);
    }
  }

  /** With distinct identifiers no event takes part in two differences. */
  lemma EachEventAtMostOnce(ds: seq<Difference>, baseline: seq<ComparableEvent>, current: seq<ComparableEvent>, tolerance: real, lossIncrease: real)
    requires SortedPermutation(ds, Unsorted(baseline, current, tolerance, lossIncrease))
    requires DistinctIds(baseline) && DistinctIds(current)
    ensures forall id :: Count(ds, NamesBaseline(id)) <= 1
    ensures forall c :: 0 <= c < |current| ==> Count(ds, NamesCurrent(current[c].id)) <= 1
  {
    var matches := Matches(baseline, current, tolerance);
    GreedyIsOneToOne(baseline, current, tolerance);
    UnsortedParts(ds, baseline, current, tolerance, lossIncrease);
    var parts := Contributions(baseline, current, matches, lossIncrease);
    forall id: nat
      ensures Count(ds, NamesBaseline(id)) <= 1
    {
      CountOfResult(ds, parts, current, UsedBy(matches), NamesBaseline(id));
      BaselineMentions(baseline, current, matches, lossIncrease, |baseline|, id);
      NewNamesNoBaseline(current, UsedBy(matches), |current|, id);
    }
    forall c | 0 <= c < |current|
      ensures Count(ds, NamesCurrent(current[c].id)) <= 1
    {
      CountOfResult(ds, parts, current, UsedBy(matches), NamesCurrent(current[c].id));
      CurrentMentions(baseline, current, matches, lossIncrease, |baseline|, c);
      NewMentions(current, UsedBy(matches), |current|, c);
    }
  }

  // ----- where each difference comes from -----

  lemma {:induction false} FlattenContains(parts: seq<seq<Difference>>, i: nat, d: Difference)
    requires i < |parts| && d in parts[i]
    ensures d in Flatten(parts)
  {
    if i < |parts| - 1 {
      FlattenContains(parts[..|parts| - 1], i, d);
    }
  }

  lemma BaselineMember(baseline: seq<ComparableEvent>, current: seq<ComparableEvent>, matches: seq<int>, lossIncrease: real, d: Difference)
    requires |matches| == |baseline| && InRange(matches, current)
    ensures d in Flatten(Contributions(baseline, current, matches, lossIncrease))
            <==> exists i :: 0 <= i < |baseline| && d in FromBaseline(baseline[i], current, matches[i], lossIncrease)
  {
    var parts := Contributions(baseline, current, matches, lossIncrease);
    if d in Flatten(parts) {
      var i := FlattenMember(parts, d);
      assert d in FromBaseline(baseline[i], current, matches[i], lossIncrease);
    } else {
      forall i | 0 <= i < |baseline|
        ensures d !in FromBaseline(baseline[i], current, matches[i], lossIncrease)
      {
        if d in parts[i] {
          FlattenContains(parts, i, d);
        }
      }
    }
  }

  /** The evidence a baseline event can give. */
  ghost predicate BaselineEvidence(d: Difference, i: int, baseline: seq<ComparableEvent>, current: seq<ComparableEvent>, matches: seq<int>, tolerance: real, lossIncrease: real)
    requires 0 <= i < |baseline| == |matches| && InRange(matches, current)
  {
    if matches[i] < 0 then IsDisappeared(d, baseline[i])
    else IsLossIncrease(d, baseline[i], current[matches[i]], tolerance, lossIncrease)
  }

  /** The evidence behind a difference: an unmatched event, or a matched pair whose loss has grown enough. */
  ghost predicate Justified(d: Difference, baseline: seq<ComparableEvent>, current: seq<ComparableEvent>, tolerance: real, lossIncrease: real) {
    var matches := Matches(baseline, current, tolerance);
    || (exists i :: 0 <= i < |baseline| && BaselineEvidence(d, i, baseline, current, matches, tolerance, lossIncrease))
    || (exists c :: 0 <= c < |current| && c !in UsedBy(matches) && IsNew(d, current[c]))
  }

  lemma ContributionIffEvidence(d: Difference, i: nat, baseline: seq<ComparableEvent>, current: seq<ComparableEvent>, tolerance: real, lossIncrease: real)
    requires i < |baseline|
    ensures var matches := Matches(baseline, current, tolerance);
            d in FromBaseline(baseline[i], current, matches[i], lossIncrease)
            <==> BaselineEvidence(d, i, baseline, current, matches, tolerance, lossIncrease)
  {
    EachMatchIsNearestLeft(baseline, current, tolerance, i);
  }

  /**
   A difference is reported exactly when there is evidence for it; in particular a reported
   loss increase is a matched pair within tolerance whose loss grew by at least the threshold.
   */
  lemma ReportedIffJustified(ds: seq<Difference>, baseline: seq<ComparableEvent>, current: seq<ComparableEvent>, tolerance: real, lossIncrease: real, d: Difference)
    requires SortedPermutation(ds, Unsorted(baseline, current, tolerance, lossIncrease))
    ensures d in ds <==> Justified(d, baseline, current, tolerance, lossIncrease)
  {
    var matches := Matches(baseline, current, tolerance);
    UnsortedParts(ds, baseline, current, tolerance, lossIncrease);
    PartsMember(ds, Flatten(Contributions(baseline, current, matches, lossIncrease)), NewUpTo(current, UsedBy(matches), |current|), d);
    BaselineMember(baseline, current, matches, lossIncrease, d);
    NewMember(current, UsedBy(matches), |current|, d);
    forall c | 0 <= c < |current|
      ensures d == NewEvent(current[c]) <==> IsNew(d, current[c])
    {
    }
    forall i | 0 <= i < |baseline|
      ensures d in FromBaseline(baseline[i], current, matches[i], lossIncrease)
              <==> BaselineEvidence(d, i, baseline, current, matches, tolerance, lossIncrease)
    {
      ContributionIffEvidence(d, i, baseline, current, tolerance, lossIncrease);
    }
  }
}
