/**
 Sorting and order statistics of float64 samples.  Every law about medians goes
 through one counting fact, RankIff: the k-th smallest sample is at most v exactly
 when more than k samples are.
 */
module OrderStatistics {
  import opened Collections

  ghost predicate IsSorted(s: seq<real>) {
    forall i, j :: 0 <= i < j < |s| ==> s[i] <= s[j]
  }

  function Insert(x: real, s: seq<real>): (r: seq<real>)
    ensures |r| == |s| + 1
  {
    if s == [] || x <= s[0] then [x] + s else [s[0]] + Insert(x, s[1..])
  }

  lemma {:induction false} InsertAdds(x: real, s: seq<real>)
    ensures multiset(Insert(x, s)) == multiset(s) + multiset{x}
  {
    if s != [] && s[0] < x {
      InsertAdds(x, s[1..]);
      assert s == [s[0]] + s[1..];
    }
  }

  lemma {:induction false} InsertKeepsBound(x: real, s: seq<real>, lo: real)
    requires lo <= x && forall i :: 0 <= i < |s| ==> lo <= s[i]
    ensures forall i :: 0 <= i < |Insert(x, s)| ==> lo <= Insert(x, s)[i]
  {
    if s != [] && s[0] < x {
      InsertKeepsBound(x, s[1..], lo);
    }
  }

  lemma {:induction false} InsertSorted(x: real, s: seq<real>)
    requires IsSorted(s)
    ensures IsSorted(Insert(x, s))
  {
    if s != [] && s[0] < x {
      InsertSorted(x, s[1..]);
      InsertKeepsBound(x, s[1..], s[0]);
    }
  }

  function Sort(s: seq<real>): (r: seq<real>)
    ensures |r| == |s|
  {
    if s == [] then [] else Insert(s[0], Sort(s[1..]))
  }

  lemma {:induction false} SortSorts(s: seq<real>)
    ensures IsSorted(Sort(s)) && multiset(Sort(s)) == multiset(s)
  {
    if s != [] {
      SortSorts(s[1..]);
      InsertSorted(s[0], Sort(s[1..]));
      InsertAdds(s[0], Sort(s[1..]));
      assert s == [s[0]] + s[1..];
    }
  }

  /** How many samples are at most v. */
  function CountLe(s: seq<real>, v: real): nat {
    if s == [] then 0 else (if s[0] <= v then 1 else 0) + CountLe(s[1..], v)
  }

  lemma {:induction false} CountLeConcat(a: seq<real>, b: seq<real>, v: real)
    ensures CountLe(a + b, v) == CountLe(a, v) + CountLe(b, v)
  {
    if a == [] {
      assert a + b == b;
    } else {
      assert (a + b)[1..] == a[1..] + b;
      CountLeConcat(a[1..], b, v);
    }
  }

  /** Taking out one occurrence of x leaves the rest of the multiset. */
  lemma WithoutAt(s: seq<real>, j: nat)
    requires j < |s|
    ensures multiset(s[..j] + s[j + 1..]) == multiset(s) - multiset{s[j]}
  {
    assert s == s[..j] + ([s[j]] + s[j + 1..]);
  }

  lemma CountLeWithoutAt(s: seq<real>, j: nat, v: real)
    requires j < |s|
    ensures CountLe(s, v) == CountLe([s[j]], v) + CountLe(s[..j] + s[j + 1..], v)
  {
    assert s == s[..j] + ([s[j]] + s[j + 1..]);
    CountLeConcat(s[..j], [s[j]] + s[j + 1..], v);
    CountLeConcat([s[j]], s[j + 1..], v);
    CountLeConcat(s[..j], s[j + 1..], v);
  }

  lemma FirstIn(a: seq<real>, b: seq<real>) returns (j: nat)
    requires a != [] && multiset(a) == multiset(b)
    ensures j < |b| && b[j] == a[0] && multiset(a[1..]) == multiset(b[..j] + b[j + 1..])
  {
    j := Occurs(a, 0, b);
    WithoutAt(b, j);
    assert a == [a[0]] + a[1..];
  }

  /** The count depends only on which samples there are, not on their order. */
  lemma {:induction false} CountLePermutation(a: seq<real>, b: seq<real>, v: real)
    requires multiset(a) == multiset(b)
    ensures CountLe(a, v) == CountLe(b, v)
  {
    if a == [] {
      assert |multiset(b)| == 0;
    } else {
      var j := FirstIn(a, b);
      CountLePermutation(a[1..], b[..j] + b[j + 1..], v);
      CountLeWithoutAt(b, j, v);
    }
  }

  lemma {:induction false} SortedRank(t: seq<real>, k: nat, v: real)
    requires IsSorted(t) && k < |t|
    ensures t[k] <= v <==> CountLe(t, v) > k
  {
    if |t| > 1 {
      if t[0] <= v {
        if k > 0 { SortedRank(t[1..], k - 1, v); }
      } else {
        SortedRank(t[1..], 0, v);
      }
    }
  }

  /** The k-th smallest sample is at most v exactly when more than k samples are. */
  lemma RankIff(s: seq<real>, k: nat, v: real)
    requires k < |s|
    ensures Sort(s)[k] <= v <==> CountLe(s, v) > k
  {
    SortSorts(s);
    SortedRank(Sort(s), k, v);
    CountLePermutation(s, Sort(s), v);
  }

  /** Any sorted permutation is the one Sort returns, so it does not matter how the library sorts. */
  lemma {:induction false} SortedPermutationUnique(a: seq<real>, b: seq<real>)
    requires IsSorted(a) && IsSorted(b) && multiset(a) == multiset(b)
    ensures a == b
  {
    assert |multiset(a)| == |a| && |multiset(b)| == |b|;
    forall k | 0 <= k < |a|
      ensures a[k] == b[k]
    {
      SortedRank(a, k, a[k]);
      SortedRank(b, k, a[k]);
      SortedRank(a, k, b[k]);
      SortedRank(b, k, b[k]);
      CountLePermutation(a, b, a[k]);
      CountLePermutation(a, b, b[k]);
    }
  }

  /** sort.Float64s: in place; callers learn only that the result is a sorted permutation. */
  method SortFloat64s(a: array<real>)
    modifies a
    ensures IsSorted(a[..]) && multiset(a[..]) == multiset(old(a[..]))
  {
    var sorted := Sort(a[..]);
    SortSorts(a[..]);
    forall i | 0 <= i < a.Length {
      a[i] := sorted[i];
    }
    assert a[..] == sorted;
  }

  // ----- the median -----

  /** The middle sample, or the mean of the two middle ones. */
  function Median(s: seq<real>): real
    requires s != []
  {
    var sorted := Sort(s);
    var middle := |s| / 2;
    if |s| % 2 == 0 then (sorted[middle - 1] + sorted[middle]) / 2.0 else sorted[middle]
  }

  ghost predicate SortedFrom(t: seq<real>, s: seq<real>) { IsSorted(t) && multiset(t) == multiset(s) }

  /** The middle one of an odd number of sorted samples, the mean of the two middle ones of an even number. */
  ghost predicate IsMiddle(m: real, t: seq<real>) {
    if |t| % 2 == 1 then m == t[(|t| - 1) / 2] else |t| > 0 && m == (t[|t| / 2 - 1] + t[|t| / 2]) / 2.0
  }

  /** The middle of the samples, however they are sorted. */
  ghost predicate IsMedianOf(m: real, s: seq<real>) {
    s != [] && forall t: seq<real> :: SortedFrom(t, s) ==> IsMiddle(m, t)
  }

  lemma OneSorting(t: seq<real>, s: seq<real>)
    requires SortedFrom(t, s)
    ensures t == Sort(s)
  {
    SortSorts(s);
    SortedPermutationUnique(t, Sort(s));
  }

  lemma SortLength(s: seq<real>)
    ensures |Sort(s)| == |s|
  {
    SortSorts(s);
    assert |multiset(Sort(s))| == |Sort(s)| && |multiset(s)| == |s|;
  }

  lemma MiddleOfSort(s: seq<real>)
    requires s != []
    ensures IsMiddle(Median(s), Sort(s))
  {
    SortLength(s);
  }

  lemma MedianIsMiddle(s: seq<real>)
    requires s != []
    ensures IsMedianOf(Median(s), s)
  {
    MiddleOfSort(s);
    MiddleOfEverySort(Median(s), s);
  }

  lemma MiddleOfEverySort(m: real, s: seq<real>)
    requires s != [] && IsMiddle(m, Sort(s))
    ensures IsMedianOf(m, s)
  {
    forall t: seq<real> | SortedFrom(t, s)
      ensures IsMiddle(m, t)
    {
      OneSorting(t, s);
    }
  }

  lemma {:induction false} CountLeMonotone(a: seq<real>, b: seq<real>, v: real)
    requires |a| == |b| && forall i :: 0 <= i < |a| ==> a[i] <= b[i]
    ensures CountLe(a, v) >= CountLe(b, v)
  {
    if a != [] {
      assert forall i :: 0 <= i < |a| - 1 ==> a[1..][i] <= b[1..][i];
      CountLeMonotone(a[1..], b[1..], v);
    }
  }

  /** Order statistics respect the pointwise order of the samples. */
  lemma SortMonotone(a: seq<real>, b: seq<real>, k: nat)
    requires k < |a| == |b| && forall i :: 0 <= i < |a| ==> a[i] <= b[i]
    ensures Sort(a)[k] <= Sort(b)[k]
  {
    var v := Sort(b)[k];
    RankIff(b, k, v);
    CountLeMonotone(a, b, v);
    RankIff(a, k, v);
  }

  lemma MedianMonotone(a: seq<real>, b: seq<real>)
    requires 0 < |a| == |b| && forall i :: 0 <= i < |a| ==> a[i] <= b[i]
    ensures Median(a) <= Median(b)
  {
    SortMonotone(a, b, |a| / 2);
    if |a| % 2 == 0 {
      SortMonotone(a, b, |a| / 2 - 1);
    }
  }

  ghost predicate IsShift(s: seq<real>, t: seq<real>, c: real) {
    |s| == |t| && forall i :: 0 <= i < |s| ==> t[i] == s[i] + c
  }

  lemma {:induction false} CountLeShift(s: seq<real>, t: seq<real>, c: real, v: real)
    requires IsShift(s, t, c)
    ensures CountLe(t, v + c) == CountLe(s, v)
  {
    if s != [] {
      CountLeShift(s[1..], t[1..], c, v);
    }
  }

  lemma RankShift(s: seq<real>, t: seq<real>, c: real, k: nat, v: real, w: real)
    requires k < |s| && IsShift(s, t, c) && w == v + c
    ensures Sort(s)[k] <= v <==> Sort(t)[k] <= w
  {
    CountLeShift(s, t, c, v);
    RankIff(s, k, v);
    RankIff(t, k, w);
  }

  lemma SortShift(s: seq<real>, t: seq<real>, c: real, k: nat)
    requires k < |s| && IsShift(s, t, c)
    ensures Sort(t)[k] == Sort(s)[k] + c
  {
    var v, w := Sort(s)[k], Sort(t)[k];
    RankShift(s, t, c, k, v, v + c);
    RankShift(s, t, c, k, w - c, w);
  }

  /** Raising every sample by c raises the median by c. */
  lemma MedianShift(s: seq<real>, t: seq<real>, c: real)
    requires s != [] && IsShift(s, t, c)
    ensures Median(t) == Median(s) + c
  {
    SortShift(s, t, c, |s| / 2);
    if |s| % 2 == 0 {
      SortShift(s, t, c, |s| / 2 - 1);
    }
  }

  /** The samples of s, each raised by c. */
  function Shift(s: seq<real>, c: real): (r: seq<real>)
    ensures IsShift(s, r, c)
  {
    if s == [] then [] else [s[0] + c] + Shift(s[1..], c)
  }

  /** How many samples lie in [lo, hi]. */
  function CountWithin(s: seq<real>, lo: real, hi: real): nat {
    if s == [] then 0 else (if lo <= s[0] <= hi then 1 else 0) + CountWithin(s[1..], lo, hi)
  }

  lemma {:induction false} WithinLeavesFewOutside(s: seq<real>, lo: real, hi: real, v: real)
    ensures CountWithin(s, lo, hi) <= CountLe(s, hi)
    ensures v < lo ==> CountLe(s, v) + CountWithin(s, lo, hi) <= |s|
  {
    if s != [] {
      WithinLeavesFewOutside(s[1..], lo, hi, v);
    }
  }

  /** Robustness: a strict majority of samples in [lo, hi] keeps the median there, whatever the rest are. */
  lemma MedianRobust(s: seq<real>, lo: real, hi: real)
    requires 2 * CountWithin(s, lo, hi) > |s|
    ensures lo <= Median(s) <= hi
  {
    if s != [] {
      var middle := |s| / 2;
      StatisticRobust(s, lo, hi, middle);
      if |s| % 2 == 0 {
        StatisticRobust(s, lo, hi, middle - 1);
      }
    }
  }

  lemma StatisticRobust(s: seq<real>, lo: real, hi: real, k: nat)
    requires k < |s| && k < CountWithin(s, lo, hi) && |s| - CountWithin(s, lo, hi) <= k
    ensures lo <= Sort(s)[k] <= hi
  {
    var v := Sort(s)[k];
    WithinLeavesFewOutside(s, lo, hi, v);
    RankIff(s, k, hi);
    RankIff(s, k, v);
  }

  // ----- contiguous windows -----

  /** Interlacing: one more sample moves each order statistic by at most one rank. */
  lemma {:induction false} Interlacing(s: seq<real>, more: seq<real>, x: real, k: nat)
    requires k < |s| && multiset(more) == multiset(s) + multiset{x}
    ensures |more| == |s| + 1
    ensures Sort(more)[k] <= Sort(s)[k] <= Sort(more)[k + 1]
  {
    assert |more| == |multiset(more)| == |multiset(s)| + 1 == |s| + 1;
    assert multiset(s + [x]) == multiset(more);
    var v, w := Sort(s)[k], Sort(more)[k + 1];
    CountLeConcat(s, [x], v);
    CountLeConcat(s, [x], w);
    CountLePermutation(s + [x], more, v);
    CountLePermutation(s + [x], more, w);
    RankIff(s, k, v);
    RankIff(more, k, v);
    RankIff(more, k + 1, w);
    RankIff(s, k, w);
  }

  ghost predicate StepsWithin(s: seq<real>, d: real) {
    forall i :: 0 < i < |s| ==> s[i - 1] - d <= s[i] <= s[i - 1] + d
  }

  /** Discrete intermediate values: steps of at most d cannot cross an empty band wider than d. */
  lemma {:induction false} CannotCross(s: seq<real>, d: real, lo: real, hi: real, i: nat)
    requires StepsWithin(s, d) && hi - lo > d && i < |s|
    requires forall j :: 0 <= j < |s| ==> s[j] <= lo || hi <= s[j]
    ensures s[i] <= lo <==> s[0] <= lo
    decreases i
  {
    if i > 0 {
      CannotCross(s, d, lo, hi, i - 1);
    }
  }

  lemma SampleOfRank(s: seq<real>, k: nat) returns (j: nat)
    requires k < |s|
    ensures j < |s| && s[j] == Sort(s)[k]
  {
    SortSorts(s);
    j := Occurs(Sort(s), k, s);
  }

  lemma SortedNeighbours(t: seq<real>, k: nat, m: nat)
    requires IsSorted(t) && k + 1 < |t| && m < |t|
    ensures t[m] <= t[k] || t[k + 1] <= t[m]
  {
  }

  lemma NoSampleBetweenRanks(s: seq<real>, k: nat, j: nat)
    requires k + 1 < |s| && j < |s|
    ensures s[j] <= Sort(s)[k] || Sort(s)[k + 1] <= s[j]
  {
    SortSorts(s);
    var m := Occurs(s, j, Sort(s));
    SortedNeighbours(Sort(s), k, m);
  }

  /** So neighbouring order statistics of a contiguous window are at most d apart. */
  lemma {:induction false} SortedGaps(s: seq<real>, d: real, k: nat)
    requires StepsWithin(s, d) && k + 1 < |s| && d >= 0.0
    ensures Sort(s)[k + 1] - Sort(s)[k] <= d
  {
    var lo, hi := Sort(s)[k], Sort(s)[k + 1];
    if hi - lo > d {
      forall j | 0 <= j < |s|
        ensures s[j] <= lo || hi <= s[j]
      {
        NoSampleBetweenRanks(s, k, j);
      }
      var a := SampleOfRank(s, k);
      var b := SampleOfRank(s, k + 1);
      CannotCross(s, d, lo, hi, a);
      CannotCross(s, d, lo, hi, b);
    }
  }
}
