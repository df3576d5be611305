/** The primary estimate: an order-sensitive fold that the unstable sort nevertheless cannot influence. */
module PrimaryLaws {
  import opened Results
  import opened Reals
  import opened Compare
  import opened Collections

  function Step(best: Option<Difference>, d: Difference): Option<Difference> {
    match best
    case None => Some(d)
    case Some(b) => if Replaces(d, b) then Some(d) else best
  }

  function Fold(best: Option<Difference>, ds: seq<Difference>): Option<Difference>
    decreases |ds|
  {
    if ds == [] then best else Fold(Step(best, ds[0]), ds[1..])
  }

  lemma {:induction false} FoldLast(best: Option<Difference>, ds: seq<Difference>, d: Difference)
    ensures Fold(best, ds + [d]) == Step(Fold(best, ds), d)
    decreases |ds|
  {
    if ds == [] {
      assert ([] + [d])[1..] == [];
    } else {
      assert (ds + [d])[1..] == ds[1..] + [d];
      FoldLast(Step(best, ds[0]), ds[1..], d);
    }
  }

  lemma {:induction false} WinnerIsFold(ds: seq<Difference>)
    requires ds != []
    ensures Fold(None, ds) == Some(Winner(ds))
  {
    var init, last := ds[..|ds| - 1], ds[|ds| - 1];
    assert ds == init + [last];
    FoldLast(None, init, last);
    if |ds| > 1 {
      WinnerIsFold(init);
    }
  }

  /** Equal in everything the fold looks at or reports. */
  ghost predicate Alike(a: Difference, b: Difference) {
    a.kind == b.kind && a.distance == b.distance && a.confidence == b.confidence
  }

  ghost predicate SameVerdict(a: Option<Difference>, b: Option<Difference>) {
    (a.None? && b.None?) || (a.Some? && b.Some? && Alike(a.value, b.value))
  }

  lemma {:induction false} FoldRespectsVerdict(a: Option<Difference>, b: Option<Difference>, ds: seq<Difference>)
    requires SameVerdict(a, b)
    ensures SameVerdict(Fold(a, ds), Fold(b, ds))
    decreases |ds|
  {
    if ds != [] {
      FoldRespectsVerdict(Step(a, ds[0]), Step(b, ds[0]), ds[1..]);
    }
  }

  ghost predicate SamePosition(a: Difference, b: Difference) { a.distance == b.distance && a.kind == b.kind }

  /** Two differences that the sort may put in either order may also be folded in either order. */
  lemma TiesCommute(best: Option<Difference>, x: Difference, y: Difference)
    requires SamePosition(x, y)
    ensures SameVerdict(Step(Step(best, x), y), Step(Step(best, y), x))
  {
  }

  lemma {:induction false} MoveToFront(best: Option<Difference>, before: seq<Difference>, x: Difference, after: seq<Difference>)
    requires forall i :: 0 <= i < |before| ==> SamePosition(before[i], x)
    ensures SameVerdict(Fold(best, before + [x] + after), Fold(Step(best, x), before + after))
    decreases |before|
  {
    if before == [] {
      assert [] + [x] + after == [x] + after && [] + after == after;
    } else {
      var p, rest := before[0], before[1..];
      assert (before + [x] + after)[1..] == rest + [x] + after;
      assert (before + after)[1..] == rest + after;
      MoveToFront(Step(best, p), rest, x, after);
      TiesCommute(best, p, x);
      FoldRespectsVerdict(Step(Step(best, p), x), Step(Step(best, x), p), rest + after);
    }
  }

  lemma WithoutMiddle(t: seq<Difference>, before: seq<Difference>, d: Difference, after: seq<Difference>)
    requires t == before + [d] + after
    ensures multiset(before + after) == multiset(t) - multiset{d}
  {
  }

  lemma SortedWithoutMiddle(t: seq<Difference>, before: seq<Difference>, d: Difference, after: seq<Difference>)
    requires t == before + [d] + after && SortedByPosition(t)
    ensures SortedByPosition(before + after)
  {
    var rest := before + after;
    forall i, j | 0 <= i < j < |rest|
      ensures !Less(rest[j], rest[i])
    {
      var i', j' := if i < |before| then i else i + 1, if j < |before| then j else j + 1;
      assert t[i'] == rest[i] && t[j'] == rest[j];
    }
  }

  /** In another sorted order everything ahead of the first difference ties with it. */
  lemma AheadOfFirstTies(first: Difference, rest: seq<Difference>, before: seq<Difference>, after: seq<Difference>, i: nat)
    requires SortedByPosition([first] + rest) && SortedPermutation(before + [first] + after, [first] + rest)
    requires i < |before|
    ensures SamePosition(before[i], first)
  {
    var s, t := [first] + rest, before + [first] + after;
    assert t[i] == before[i] && t[|before|] == first && s[0] == first;
    var k := Occurs(t, i, s);
    assert !Less(t[|before|], t[i]);
    assert k > 0 ==> !Less(s[k], s[0]);
  }

  lemma SplitOtherOrder(first: Difference, rest: seq<Difference>, t: seq<Difference>)
    returns (before: seq<Difference>, after: seq<Difference>)
    requires multiset(t) == multiset([first] + rest)
    ensures t == before + [first] + after && multiset(before + after) == multiset(rest)
  {
    var j := Occurs([first] + rest, 0, t);
    before, after := t[..j], t[j + 1..];
    WithoutMiddle(t, before, first, after);
  }

  lemma {:induction false} FoldIgnoresTies(best: Option<Difference>, s: seq<Difference>, t: seq<Difference>)
    requires SortedByPosition(s) && SortedPermutation(t, s)
    ensures SameVerdict(Fold(best, s), Fold(best, t))
    decreases |s|
  {
    if s == [] {
      assert |t| == |multiset(t)| == |multiset(s)| == 0;
    } else {
      var first, rest := s[0], s[1..];
      assert s == [first] + rest;
      var before, after := SplitOtherOrder(first, rest, t);
      forall i | 0 <= i < |before|
        ensures SamePosition(before[i], first)
      {
        AheadOfFirstTies(first, rest, before, after, i);
      }
      SortedWithoutMiddle(t, before, first, after);
      FoldIgnoresTies(Step(best, first), rest, before + after);
      MoveToFront(best, before, first, after);
    }
  }

  /** Whatever sorted permutation the sort returns, the estimate and its uncertainty are the same. */
  lemma PrimaryIgnoresUnstableSort(s: seq<Difference>, t: seq<Difference>, unsorted: seq<Difference>)
    requires SortedPermutation(s, unsorted) && SortedPermutation(t, unsorted)
    ensures Primary(s) == Primary(t)
  {
    assert |s| == |multiset(s)| == |multiset(t)| == |t|;
    if s != [] {
      FoldIgnoresTies(None, s, t);
      WinnerIsFold(s);
      WinnerIsFold(t);
    }
  }

  /** Without the sort it would not be so: the same two differences in the other order give another estimate. */
  lemma PrimaryDependsOnOrderInGeneral()
    ensures exists s: seq<Difference>, t: seq<Difference> :: multiset(s) == multiset(t) && Primary(s) != Primary(t)
  {
    var loss := Difference(LossIncreased, Some(1), Some(2), 100.0, 1.0, 0.6);
    var newcomer := Difference(New, None, Some(3), 300.0, 0.3, 0.9);
    var s, t := [loss, newcomer], [newcomer, loss];
    assert multiset(s) == multiset(t);
    assert s[..|s| - 1] == [loss] && t[..|t| - 1] == [newcomer];
    assert Winner(s) == newcomer && Winner(t) == loss;
    assert Primary(s).value.distance == 300.0 && Primary(t).value.distance == 100.0;
  }

  /** The winner is one of the differences and nothing after it would replace it. */
  lemma {:induction false} WinnerStands(ds: seq<Difference>) returns (k: nat)
    requires ds != []
    ensures k < |ds| && ds[k] == Winner(ds)
    ensures forall j :: k < j < |ds| ==> !Replaces(ds[j], ds[k])
  {
    var last := |ds| - 1;
    if last == 0 || Replaces(ds[last], Winner(ds[..last])) {
      k := last;
    } else {
      k := WinnerStands(ds[..last]);
    }
  }

  // ----- what kind of difference wins -----

  /** Some loss increase from a on and before j is at least as confident as the j-th difference. */
  predicate Covered(ds: seq<Difference>, a: nat, j: nat)
    requires j < |ds|
  {
    exists b :: a <= b < j && ds[b].kind.LossIncreased? && ds[j].confidence <= ds[b].confidence
  }

  /** Every other difference after the a-th, a loss increase, is covered. */
  predicate LossHoldsFrom(ds: seq<Difference>, a: nat) {
    && a < |ds| && ds[a].kind.LossIncreased?
    && forall j :: a < j < |ds| && !ds[j].kind.LossIncreased? ==> Covered(ds, a, j)
  }

  lemma {:induction false} HeldLossWins(ds: seq<Difference>, a: nat)
    requires LossHoldsFrom(ds, a)
    ensures Winner(ds).kind.LossIncreased?
    ensures forall b :: a <= b < |ds| && ds[b].kind.LossIncreased? ==> ds[b].confidence <= Winner(ds).confidence
  {
    var init, last := ds[..|ds| - 1], |ds| - 1;
    if a < last {
      forall j | a < j < last && !ds[j].kind.LossIncreased?
        ensures Covered(init, a, j)
      {
        assert Covered(ds, a, j);
        var b :| a <= b < j && ds[b].kind.LossIncreased? && ds[j].confidence <= ds[b].confidence;
        assert init[b] == ds[b];
      }
      HeldLossWins(init, a);
      assert forall b :: a <= b < last ==> ds[b] == init[b];
      if !ds[last].kind.LossIncreased? {
        assert Covered(ds, a, last);
      }
    }
  }

  /** A winning loss increase holds from some a, and one from there on has its confidence. */
  lemma {:induction false} WinningLossHolds(ds: seq<Difference>) returns (a: nat, b: nat)
    requires ds != [] && Winner(ds).kind.LossIncreased?
    ensures LossHoldsFrom(ds, a)
    ensures a <= b < |ds| && ds[b].kind.LossIncreased? && ds[b].confidence == Winner(ds).confidence
  {
    var init, last := ds[..|ds| - 1], |ds| - 1;
    a, b := last, last;
    if last > 0 && Winner(init).kind.LossIncreased? {
      a, b := WinningLossHolds(init);
      forall j | a < j < |ds| && !ds[j].kind.LossIncreased?
        ensures Covered(ds, a, j)
      {
        if j < last {
          assert Covered(init, a, j);
          var k :| a <= k < j && init[k].kind.LossIncreased? && init[j].confidence <= init[k].confidence;
          assert ds[k] == init[k] && ds[j] == init[j];
        } else {
          assert ds[b] == init[b];
        }
      }
      if Replaces(ds[last], Winner(init)) {
        b := last;
      }
    }
  }

  /**
   Exactly when the estimate is that of a loss increase: when from some loss increase on every
   other difference is preceded, from there, by a loss increase at least as confident.
   */
  lemma WinnerIsLossIff(ds: seq<Difference>)
    requires ds != []
    ensures Winner(ds).kind.LossIncreased? <==> exists a: nat :: LossHoldsFrom(ds, a)
  {
    if Winner(ds).kind.LossIncreased? {
      var a, b := WinningLossHolds(ds);
    } else if a: nat :| LossHoldsFrom(ds, a) {
      HeldLossWins(ds, a);
    }
  }

  ghost predicate MostConfident(ds: seq<Difference>, m: nat) {
    m < |ds| && forall j :: 0 <= j < |ds| ==> ds[j].confidence <= ds[m].confidence
  }

  /** The m-th difference is a loss increase, or no loss increase comes after it. */
  predicate KeepsConfidence(ds: seq<Difference>, m: nat)
    requires m < |ds|
  {
    ds[m].kind.LossIncreased? || forall j :: m < j < |ds| ==> !ds[j].kind.LossIncreased?
  }

  lemma {:induction false} KeptConfidenceWins(ds: seq<Difference>, m: nat)
    requires MostConfident(ds, m) && KeepsConfidence(ds, m)
    ensures Winner(ds).confidence == ds[m].confidence
    ensures ds[m].kind.LossIncreased? ==> Winner(ds).kind.LossIncreased?
  {
    var init, last := ds[..|ds| - 1], |ds| - 1;
    assert init != [] ==> Winner(init) in init by {
      if init != [] {
        var k := WinnerStands(init);
      }
    }
    if m < last {
      assert MostConfident(init, m) && KeepsConfidence(init, m);
      KeptConfidenceWins(init, m);
    }
  }

  /**
   Exactly when the estimate is that of a most confident difference: when some most confident one
   is a loss increase or has no loss increase after it.
   */
  lemma WinnerIsMostConfidentIff(ds: seq<Difference>)
    requires ds != []
    ensures (forall d :: d in ds ==> d.confidence <= Winner(ds).confidence)
            <==> exists m: nat :: MostConfident(ds, m) && KeepsConfidence(ds, m)
  {
    if forall d :: d in ds ==> d.confidence <= Winner(ds).confidence {
      var k := WinnerStands(ds);
      assert MostConfident(ds, k) && KeepsConfidence(ds, k);
    } else if m: nat :| MostConfident(ds, m) && KeepsConfidence(ds, m) {
      KeptConfidenceWins(ds, m);
    }
  }

  // ----- which difference wins -----

  /** The first of the most confident from lo on, among the loss increases or among all. */
  ghost predicate FirstBest(ds: seq<Difference>, lo: nat, k: nat, losses: bool) {
    && lo <= k < |ds| && (losses ==> ds[k].kind.LossIncreased?)
    && forall j :: lo <= j < |ds| && (losses ==> ds[j].kind.LossIncreased?) ==>
         ds[j].confidence <= ds[k].confidence && (j < k ==> ds[j].confidence < ds[k].confidence)
  }

  /** The first loss increase that holds to the end. */
  ghost predicate FirstHeld(ds: seq<Difference>, a: nat) {
    LossHoldsFrom(ds, a) && forall b: nat :: b < a ==> !LossHoldsFrom(ds, b)
  }

  /** a is just after the last loss increase, or 0 when there is none. */
  ghost predicate AfterLosses(ds: seq<Difference>, a: nat) {
    && a < |ds| && (a > 0 ==> ds[a - 1].kind.LossIncreased?)
    && forall j :: a <= j < |ds| ==> !ds[j].kind.LossIncreased?
  }

  /**
   The k-th difference is the one to report: if some loss increase holds to the end, the first of
   the most confident loss increases from the first such one on; otherwise the first of the most
   confident differences after the last loss increase.
   */
  ghost predicate Chosen(ds: seq<Difference>, k: nat) {
    if exists a: nat :: LossHoldsFrom(ds, a)
    then exists a: nat :: FirstHeld(ds, a) && FirstBest(ds, a, k, true)
    else exists a: nat :: AfterLosses(ds, a) && FirstBest(ds, a, k, false)
  }

  lemma HoldsInPrefix(ds: seq<Difference>, a: nat)
    requires LossHoldsFrom(ds, a) && a < |ds| - 1
    ensures LossHoldsFrom(ds[..|ds| - 1], a)
  {
    var init := ds[..|ds| - 1];
    forall j | a < j < |init| && !init[j].kind.LossIncreased?
      ensures Covered(init, a, j)
    {
      assert Covered(ds, a, j);
      var b :| a <= b < j && ds[b].kind.LossIncreased? && ds[j].confidence <= ds[b].confidence;
      assert init[b] == ds[b];
    }
  }

  lemma HoldsLonger(ds: seq<Difference>, a: nat)
    requires |ds| > 1 && LossHoldsFrom(ds[..|ds| - 1], a)
    requires ds[|ds| - 1].kind.LossIncreased? || Covered(ds, a, |ds| - 1)
    ensures LossHoldsFrom(ds, a)
  {
    var init := ds[..|ds| - 1];
    forall j | a < j < |ds| && !ds[j].kind.LossIncreased?
      ensures Covered(ds, a, j)
    {
      if j < |init| {
        assert Covered(init, a, j);
        var b :| a <= b < j && init[b].kind.LossIncreased? && init[j].confidence <= init[b].confidence;
        assert ds[b] == init[b] && ds[j] == init[j];
      }
    }
  }

  lemma FirstHeldLonger(ds: seq<Difference>, a: nat)
    requires |ds| > 1 && FirstHeld(ds[..|ds| - 1], a) && LossHoldsFrom(ds, a)
    ensures FirstHeld(ds, a)
  {
    forall b: nat | b < a
      ensures !LossHoldsFrom(ds, b)
    {
      if LossHoldsFrom(ds, b) {
        HoldsInPrefix(ds, b);
      }
    }
  }

  /** A more confident newcomer than the most confident held loss increase beats everything after the losses. */
  lemma NewcomerBeatsAll(init: seq<Difference>, a: nat, k: nat, c: real, j: nat)
    requires FirstHeld(init, a) && FirstBest(init, a, k, true) && init[k].confidence < c
    requires j < |init| && !init[j].kind.LossIncreased? && a < j
    ensures init[j].confidence < c
  {
    assert Covered(init, a, j);
  }

  lemma LastLossIndex(ds: seq<Difference>) returns (a: nat)
    requires ds != [] && !ds[|ds| - 1].kind.LossIncreased?
    ensures AfterLosses(ds, a)
  {
    a := |ds| - 1;
    while a > 0 && !ds[a - 1].kind.LossIncreased?
      invariant a < |ds|
      invariant forall j :: a <= j < |ds| ==> !ds[j].kind.LossIncreased?
    {
      a := a - 1;
    }
  }

  /** The winner with its reason: a held loss increase, or the best after the losses. */
  ghost predicate Reason(ds: seq<Difference>, k: nat, a: nat) {
    && k < |ds| && ds[k] == Winner(ds)
    && (Winner(ds).kind.LossIncreased? ==> FirstHeld(ds, a) && FirstBest(ds, a, k, true))
    && (!Winner(ds).kind.LossIncreased? ==> AfterLosses(ds, a) && FirstBest(ds, a, k, false))
  }

  lemma LossAfterLoss(ds: seq<Difference>, k0: nat, a: nat) returns (k: nat)
    requires |ds| > 1 && Reason(ds[..|ds| - 1], k0, a) && Winner(ds[..|ds| - 1]).kind.LossIncreased?
    requires ds[|ds| - 1].kind.LossIncreased?
    ensures Reason(ds, k, a)
  {
    HoldsLonger(ds, a);
    FirstHeldLonger(ds, a);
    k := if ds[|ds| - 1].confidence > Winner(ds[..|ds| - 1]).confidence then |ds| - 1 else k0;
  }

  lemma OtherAfterLoss(ds: seq<Difference>, k0: nat, a0: nat) returns (k: nat, a: nat)
    requires |ds| > 1 && Reason(ds[..|ds| - 1], k0, a0) && Winner(ds[..|ds| - 1]).kind.LossIncreased?
    requires !ds[|ds| - 1].kind.LossIncreased?
    ensures Reason(ds, k, a)
  {
    var init, last := ds[..|ds| - 1], |ds| - 1;
    if ds[last].confidence > Winner(init).confidence {
      k := last;
      a := LastLossIndex(ds);
      assert a > a0 by {
        assert ds[a0].kind.LossIncreased?;
      }
      forall j | a <= j < last
        ensures ds[j].confidence < ds[last].confidence
      {
        NewcomerBeatsAll(init, a0, k0, ds[last].confidence, j);
      }
    } else {
      k, a := k0, a0;
      assert ds[k0] == init[k0];
      assert Covered(ds, a0, last);
      HoldsLonger(ds, a0);
      FirstHeldLonger(ds, a0);
    }
  }

  lemma LossAfterOther(ds: seq<Difference>)
    requires |ds| > 1 && !Winner(ds[..|ds| - 1]).kind.LossIncreased? && ds[|ds| - 1].kind.LossIncreased?
    ensures Reason(ds, |ds| - 1, |ds| - 1)
  {
    forall b: nat | b < |ds| - 1
      ensures !LossHoldsFrom(ds, b)
    {
      if LossHoldsFrom(ds, b) {
        HoldsInPrefix(ds, b);
        HeldLossWins(ds[..|ds| - 1], b);
      }
    }
  }

  /** Every winner has its reason. */
  lemma {:induction false} WinnerHasReason(ds: seq<Difference>) returns (k: nat, a: nat)
    requires ds != []
    ensures Reason(ds, k, a)
  {
    var init, last := ds[..|ds| - 1], |ds| - 1;
    if last == 0 {
      k, a := 0, 0;
      return;
    }
    k, a := WinnerHasReason(init);
    if Winner(init).kind.LossIncreased? && ds[last].kind.LossIncreased? {
      k := LossAfterLoss(ds, k, a);
    } else if Winner(init).kind.LossIncreased? {
      k, a := OtherAfterLoss(ds, k, a);
    } else if ds[last].kind.LossIncreased? {
      LossAfterOther(ds);
      k, a := last, last;
    } else if ds[last].confidence > Winner(init).confidence {
      k := last;
    }
  }

  lemma FirstHeldUnique(ds: seq<Difference>, a: nat, b: nat)
    requires FirstHeld(ds, a) && FirstHeld(ds, b)
    ensures a == b
  {
    assert (a < b ==> !LossHoldsFrom(ds, a)) && (b < a ==> !LossHoldsFrom(ds, b));
  }

  lemma AfterLossesNotBefore(ds: seq<Difference>, a: nat, b: nat)
    requires AfterLosses(ds, a) && AfterLosses(ds, b)
    ensures b <= a
  {
    var previous := if b > 0 then ds[b - 1] else ds[b];
  }

  lemma FirstBestNotAfter(ds: seq<Difference>, lo: nat, k: nat, l: nat, losses: bool)
    requires FirstBest(ds, lo, k, losses) && FirstBest(ds, lo, l, losses)
    ensures k <= l
  {
    var one, other := ds[k], ds[l];
  }

  /** The rule determines the winner. */
  lemma ChosenIsUnique(ds: seq<Difference>, k: nat, l: nat)
    requires Chosen(ds, k) && Chosen(ds, l)
    ensures k == l
  {
    if exists a: nat :: LossHoldsFrom(ds, a) {
      var a: nat :| FirstHeld(ds, a) && FirstBest(ds, a, k, true);
      var b: nat :| FirstHeld(ds, b) && FirstBest(ds, b, l, true);
      FirstHeldUnique(ds, a, b);
      FirstBestNotAfter(ds, a, k, l, true);
      FirstBestNotAfter(ds, a, l, k, true);
    } else {
      var a: nat :| AfterLosses(ds, a) && FirstBest(ds, a, k, false);
      var b: nat :| AfterLosses(ds, b) && FirstBest(ds, b, l, false);
      AfterLossesNotBefore(ds, a, b);
      AfterLossesNotBefore(ds, b, a);
      FirstBestNotAfter(ds, a, k, l, false);
      FirstBestNotAfter(ds, a, l, k, false);
    }
  }

  /** The uncertainty by the confidence of the reported difference. */
  ghost predicate IsUncertainty(u: real, confidence: real) {
    u == if confidence <= 0.95 then 20.0 * (1.0 - confidence) else 1.0
  }

  ghost predicate Estimates(e: Estimate, ds: seq<Difference>, k: nat) {
    k < |ds| && Chosen(ds, k) && e.distance == ds[k].distance && IsUncertainty(e.uncertainty, ds[k].confidence)
  }

  /**
   The estimate said without the fold that computes it: none exactly for no differences; otherwise
   the place of the chosen difference and the uncertainty of its confidence.
   */
  lemma PrimaryIs(ds: seq<Difference>)
    ensures Primary(ds).None? <==> ds == []
    ensures Primary(ds).Some? ==> exists k: nat :: Estimates(Primary(ds).value, ds, k)
  {
    if ds != [] {
      var k, a := WinnerHasReason(ds);
      WinnerIsLossIff(ds);
      assert Estimates(Primary(ds).value, ds, k);
    }
  }

  lemma MiddleIsMatched(base: ComparableEvent, current: seq<ComparableEvent>, tolerance: real)
    requires |current| == 3 && !Near(base, current[0], tolerance) && Near(base, current[1], tolerance) && !Near(base, current[2], tolerance)
    ensures Matches([base], current, tolerance) == [1]
  {
    assert NearestUpTo(base, current, {}, tolerance, 0) == -1;
    assert NearestUpTo(base, current, {}, tolerance, 1) == -1;
    assert NearestUpTo(base, current, {}, tolerance, 2) == 1;
    assert MatchesUpTo([base], current, tolerance, 0) == [] && UsedBy([]) == {};
  }

  lemma LossBetweenNewOnes(base: ComparableEvent, current: seq<ComparableEvent>, tolerance: real, lossIncrease: real)
    requires |current| == 3 && Matches([base], current, tolerance) == [1]
    requires current[1].insertionLoss - base.insertionLoss >= lossIncrease
    ensures Unsorted([base], current, tolerance, lossIncrease) == [LossIncrease(base, current[1]), NewEvent(current[0]), NewEvent(current[2])]
  {
    var parts := Contributions([base], current, [1], lossIncrease);
    assert parts == [[LossIncrease(base, current[1])]] && parts[..0] == [];
    assert Flatten(parts) == [LossIncrease(base, current[1])];
    assert UsedBy([1]) == {1};
    assert NewUpTo(current, {1}, 0) == [];
    assert NewUpTo(current, {1}, 1) == [NewEvent(current[0])];
    assert NewUpTo(current, {1}, 2) == [NewEvent(current[0])];
  }

  lemma SortedThree(a: Difference, b: Difference, c: Difference)
    requires a.distance < b.distance < c.distance
    ensures SortedPermutation([a, b, c], [b, a, c])
  {
  }

  lemma WinnerOfThree(a: Difference, b: Difference, c: Difference)
    requires Replaces(b, a) && Replaces(c, b)
    ensures Winner([a, b, c]) == c
  {
    var ds := [a, b, c];
    assert ds[..2] == [a, b] && ds[..2][..1] == [a];
    assert Winner([a]) == a && Winner(ds[..2]) == b;
    assert ds[..|ds| - 1] == ds[..2] && ds[2] == c;
  }

  /** Neither a loss increase, though there is one, nor the most confident. */
  ghost predicate WinsByOrder(ds: seq<Difference>) {
    && ds != [] && Winner(ds).kind == New
    && (exists d :: d in ds && d.kind == LossIncreased)
    && (exists d :: d in ds && d.confidence > Winner(ds).confidence)
  }

  lemma NewcomerWins(a: Difference, b: Difference, c: Difference)
    requires a.kind == New && b.kind == LossIncreased && c.kind == New && b.confidence < c.confidence < a.confidence
    ensures WinsByOrder([a, b, c])
  {
    WinnerOfThree(a, b, c);
    assert a in [a, b, c] && b in [a, b, c];
  }

  lemma RoundedTenths(n: int)
    ensures Round3(n as real / 10.0) == n as real / 10.0
  {
    RoundOfInteger(100 * n);
    assert n as real / 10.0 * 1000.0 == (100 * n) as real;
  }

  lemma NewcomerWinsComparison(base: ComparableEvent, current: seq<ComparableEvent>, tolerance: real, lossIncrease: real)
    requires |current| == 3 && !Near(base, current[0], tolerance) && Near(base, current[1], tolerance) && !Near(base, current[2], tolerance)
    requires current[1].insertionLoss - base.insertionLoss >= lossIncrease
    requires current[0].distance < current[1].distance < current[2].distance
    requires Round3(Min(base.confidence, current[1].confidence)) < Round3(current[2].confidence) < Round3(current[0].confidence)
    ensures exists ds: seq<Difference> :: SortedPermutation(ds, Unsorted([base], current, tolerance, lossIncrease)) && WinsByOrder(ds)
  {
    MiddleIsMatched(base, current, tolerance);
    LossBetweenNewOnes(base, current, tolerance, lossIncrease);
    var a, b, c := NewEvent(current[0]), LossIncrease(base, current[1]), NewEvent(current[2]);
    SortedThree(a, b, c);
    NewcomerWins(a, b, c);
  }

  lemma ThreeConfidences()
    ensures Round3(Min(0.6, 0.8)) == 0.6 && Round3(0.7) == 0.7 && Round3(0.9) == 0.9
  {
    RoundedTenths(6);
    RoundedTenths(7);
    RoundedTenths(9);
  }

  /**
   Both conditions can fail on what the comparison returns: the winner may be neither a loss
   increase nor the most confident difference.
   */
  lemma WinnerNeedNotBeLossOrMostConfident()
    ensures exists ds: seq<Difference>, baseline: seq<ComparableEvent>, current: seq<ComparableEvent> ::
              SortedPermutation(ds, Unsorted(baseline, current, 25.0, 0.5)) && WinsByOrder(ds)
  {
    var base := ComparableEvent(2, 200.0, 0.5, 0.6);
    var low, same, high := ComparableEvent(1, 100.0, 0.3, 0.9), ComparableEvent(3, 200.0, 1.5, 0.8), ComparableEvent(4, 300.0, 0.3, 0.7);
    var current := [low, same, high];
    ThreeConfidences();
    NewcomerWinsComparison(base, current, 25.0, 0.5);
  }
}
