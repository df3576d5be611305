/** algorithm/denoise.go: the edge-truncated moving median. */
module Denoise {
  import opened Results
  import opened OrderStatistics

  const MIN_SAMPLES := 3
  const MAX_WINDOW := 31

  /** Half of the window after an even window has been bumped to the next odd one. */
  function Half(window: int): int
    requires 1 <= window
  {
    (if window % 2 == 0 then window + 1 else window) / 2
  }

  predicate Accepted(points: seq<real>, window: int) {
    |points| >= MIN_SAMPLES && 1 <= window <= MAX_WINDOW
  }

  function Start(half: nat, i: nat): nat { if i < half then 0 else i - half }

  function End(half: nat, i: nat, n: nat): nat { if i + half + 1 > n then n else i + half + 1 }

  /** The samples around i that exist, in trace order. */
  function Window(points: seq<real>, half: nat, i: nat): (w: seq<real>)
    requires i < |points|
    ensures w != []
  {
    points[Start(half, i)..End(half, i, |points|)]
  }

  /** The median filter: every sample becomes the median of its window. */
  function Filtered(points: seq<real>, half: nat): (r: seq<real>)
    ensures |r| == |points|
  {
    seq(|points|, i requires 0 <= i < |points| => Median(Window(points, half, i)))
  }

  lemma FilteredAt(points: seq<real>, half: nat, i: nat)
    requires i < |points|
    ensures Filtered(points, half)[i] == Median(Window(points, half, i))
  {
  }

  function MovingMedianSpec(points: seq<real>, window: int): Result<seq<real>> {
    if |points| < MIN_SAMPLES then Err("at least three samples are required")
    else if window < 1 || window > MAX_WINDOW then Err("window must be between 1 and 31")
    else Ok(Filtered(points, Half(window)))
  }

  /** The window, or the next odd number. */
  function OddWindow(window: int): int { if window % 2 == 0 then window + 1 else window }

  /** The samples at most reach away from i that exist. */
  function Around(points: seq<real>, reach: nat, i: nat): seq<real>
    requires i < |points|
  {
    points[(if i >= reach then i - reach else 0)..(if i + reach < |points| then i + reach + 1 else |points|)]
  }

  /** The value is the median of the samples in a window of w, an odd number, around i. */
  ghost predicate IsMedianAt(m: real, points: seq<real>, w: int, i: nat)
    requires i < |points| && w >= 1
  {
    IsMedianOf(m, Around(points, (w - 1) / 2, i))
  }

  lemma WindowIsAround(points: seq<real>, half: nat, i: nat)
    requires i < |points|
    ensures Window(points, half, i) == Around(points, half, i)
  {
  }

  lemma HalfIsReach(window: int)
    requires window >= 1
    ensures Half(window) == (OddWindow(window) - 1) / 2
  {
  }

  lemma FilteredIsMedian(points: seq<real>, window: int, i: nat)
    requires i < |points| && window >= 1
    ensures IsMedianAt(Filtered(points, Half(window))[i], points, OddWindow(window), i)
  {
    HalfIsReach(window);
    FilteredAt(points, Half(window), i);
    WindowIsAround(points, Half(window), i);
    MedianIsMiddle(Window(points, Half(window), i));
  }

  /** What the filter computes, said without the functions that compute it. */
  lemma FilterIsMedian(points: seq<real>, window: int)
    ensures MovingMedianSpec(points, window).Ok? <==> |points| >= 3 && 1 <= window <= 31
    ensures MovingMedianSpec(points, window).Ok? ==>
              && |MovingMedianSpec(points, window).value| == |points|
              && forall i :: 0 <= i < |points| ==> IsMedianAt(MovingMedianSpec(points, window).value[i], points, OddWindow(window), i)
  {
    if MovingMedianSpec(points, window).Ok? {
      forall i | 0 <= i < |points|
        ensures IsMedianAt(Filtered(points, Half(window))[i], points, OddWindow(window), i)
      {
        FilteredIsMedian(points, window, i);
      }
    }
  }

  method MovingMedian(points: seq<real>, requested: int) returns (r: Result<seq<real>>)
    ensures r == MovingMedianSpec(points, requested)
    ensures r.Ok? <==> |points| >= 3 && 1 <= requested <= 31
    ensures r.Ok? ==> |r.value| == |points| && forall i :: 0 <= i < |points| ==> IsMedianAt(r.value[i], points, OddWindow(requested), i)
  {
    FilterIsMedian(points, requested);
    if |points| < MIN_SAMPLES {
      return Err("at least three samples are required");
    }
    var window := requested;
    if window < 1 || window > MAX_WINDOW {
      return Err("window must be between 1 and 31");
    }
    if window % 2 == 0 {
      window := window + 1;
    }
    var filtered := FilterWith(points, window / 2);
    return Ok(filtered);
  }

  /** MovingMedian's loop. */
  method FilterWith(points: seq<real>, half: nat) returns (r: seq<real>)
    ensures r == Filtered(points, half)
  {
    ghost var target := Filtered(points, half);
    var filtered := new real[|points|];
    for i := 0 to |points|
      invariant filtered[..i] == target[..i]
    {
      FilteredAt(points, half, i);
      filtered[i] := WindowMedian(points, half, i);
    }
    assert target[..|points|] == target;
    r := filtered[..];
  }

  /** The body of MovingMedian's loop. */
  method WindowMedian(points: seq<real>, half: nat, i: nat) returns (m: real)
    requires i < |points|
    ensures m == Median(Window(points, half, i))
  {
    var start, end := i - half, i + half + 1;
    if start < 0 {
      start := 0;
    }
    if end > |points| {
      end := |points|;
    }
    var bucket := CopyOf(points[start..end]);
    m := MedianInPlace(bucket);
  }

  /** append([]float64(nil), s...): a fresh array with the same samples. */
  method CopyOf(s: seq<real>) returns (a: array<real>)
    ensures fresh(a) && a[..] == s
  {
    a := new real[|s|](k requires 0 <= k < |s| => s[k]);
  }

  /** Sorts the bucket and takes its middle; any correct sort gives the same answer. */
  method MedianInPlace(bucket: array<real>) returns (m: real)
    requires bucket.Length > 0
    modifies bucket
    ensures m == Median(old(bucket[..]))
  {
    ghost var samples := bucket[..];
    SortFloat64s(bucket);
    SortSorts(samples);
    SortedPermutationUnique(bucket[..], Sort(samples));
    var middle := bucket.Length / 2;
    if bucket.Length % 2 == 0 {
      m := (bucket[middle - 1] + bucket[middle]) / 2.0;
    } else {
      m := bucket[middle];
    }
  }

  // ----- order and offset -----

  /** Pointwise ordered traces have pointwise ordered filtered traces, edges included. */
  lemma FilteringIsMonotone(a: seq<real>, b: seq<real>, half: nat, i: nat)
    requires i < |a| == |b| && forall j :: 0 <= j < |a| ==> a[j] <= b[j]
    ensures Filtered(a, half)[i] <= Filtered(b, half)[i]
  {
    MedianMonotone(Window(a, half, i), Window(b, half, i));
    FilteredAt(a, half, i);
    FilteredAt(b, half, i);
  }

  /** A window with a strict majority in [lo, hi] filters to a value in [lo, hi]. */
  lemma FilteringIsRobust(points: seq<real>, half: nat, i: nat, lo: real, hi: real)
    requires i < |points| && 2 * CountWithin(Window(points, half, i), lo, hi) > |Window(points, half, i)|
    ensures lo <= Filtered(points, half)[i] <= hi
  {
    MedianRobust(Window(points, half, i), lo, hi);
    FilteredAt(points, half, i);
  }

  /** Raising every raw sample by c raises every filtered sample by exactly c. */
  lemma FilteringShifts(points: seq<real>, raised: seq<real>, half: nat, c: real)
    requires IsShift(points, raised, c)
    ensures IsShift(Filtered(points, half), Filtered(raised, half), c)
  {
    forall i | 0 <= i < |points|
      ensures Filtered(raised, half)[i] == Filtered(points, half)[i] + c
    {
      MedianShift(Window(points, half, i), Window(raised, half, i), c);
      FilteredAt(points, half, i);
      FilteredAt(raised, half, i);
    }
  }

  // ----- denoising never sharpens -----

  function AbsStep(points: seq<real>, i: nat): (r: real)
    requires 0 < i < |points|
    ensures r >= 0.0
  {
    if points[i] >= points[i - 1] then points[i] - points[i - 1] else points[i - 1] - points[i]
  }

  /** The largest adjacent step; zero for a single sample. */
  function LargestStep(points: seq<real>): (r: real)
    ensures r >= 0.0
  {
    if |points| < 2 then 0.0
    else
      var rest := LargestStep(points[..|points| - 1]);
      var last := AbsStep(points, |points| - 1);
      if last > rest then last else rest
  }

  /** LargestStep is the least bound on the adjacent steps. */
  lemma {:induction false} LargestStepIff(points: seq<real>, d: real)
    requires d >= 0.0
    ensures LargestStep(points) <= d <==> StepsWithin(points, d)
  {
    if |points| >= 2 {
      var init := points[..|points| - 1];
      LargestStepIff(init, d);
      assert StepsWithin(points, d) <==> StepsWithin(init, d) && AbsStep(points, |points| - 1) <= d by {
        if StepsWithin(init, d) && AbsStep(points, |points| - 1) <= d {
          forall i | 0 < i < |points|
            ensures points[i - 1] - d <= points[i] <= points[i - 1] + d
          {
            if i < |points| - 1 { assert init[i] == points[i] && init[i - 1] == points[i - 1]; }
          }
        }
        if StepsWithin(points, d) {
          forall i | 0 < i < |init|
            ensures init[i - 1] - d <= init[i] <= init[i - 1] + d
          {
            assert init[i] == points[i] && init[i - 1] == points[i - 1];
          }
        }
      }
    }
  }

  ghost predicate Close(x: real, y: real, d: real) { x - d <= y <= x + d }

  /** One more sample at either end of a contiguous window moves its median by at most d. */
  lemma GrowingWindow(s: seq<real>, more: seq<real>, x: real, d: real)
    requires s != [] && d >= 0.0 && (more == s + [x] || more == [x] + s)
    requires StepsWithin(s, d) && StepsWithin(more, d)
    ensures Close(Median(s), Median(more), d) && Close(Median(more), Median(s), d)
  {
    assert multiset(more) == multiset(s) + multiset{x};
    if |s| % 2 == 0 {
      GrowingEven(s, more, x, d);
    } else {
      GrowingOdd(s, more, x, d);
    }
  }

  lemma GrowingEven(s: seq<real>, more: seq<real>, x: real, d: real)
    requires |s| > 0 && |s| % 2 == 0 && d >= 0.0 && multiset(more) == multiset(s) + multiset{x}
    requires StepsWithin(s, d)
    ensures Close(Median(s), Median(more), d) && Close(Median(more), Median(s), d)
  {
    var middle := |s| / 2;
    Interlacing(s, more, x, middle);
    Interlacing(s, more, x, middle - 1);
    SortedGaps(s, d, middle - 1);
    var lo, hi := Sort(s)[middle - 1], Sort(s)[middle];
    assert lo <= Median(more) <= hi;
    assert Median(s) == (lo + hi) / 2.0;
  }

  lemma GrowingOdd(s: seq<real>, more: seq<real>, x: real, d: real)
    requires |s| % 2 == 1 && d >= 0.0 && multiset(more) == multiset(s) + multiset{x}
    requires StepsWithin(more, d)
    ensures Close(Median(s), Median(more), d) && Close(Median(more), Median(s), d)
  {
    var middle := |s| / 2;
    Interlacing(s, more, x, middle);
    SortedGaps(more, d, middle);
    var lo, hi := Sort(more)[middle], Sort(more)[middle + 1];
    assert lo <= Median(s) <= hi;
    assert Median(more) == (lo + hi) / 2.0;
  }

  /** Moving a window of fixed size by one sample moves its median by at most d. */
  lemma SlidingWindow(a: seq<real>, b: seq<real>, d: real)
    requires 0 < |a| == |b| && forall k :: 0 <= k < |a| ==> Close(a[k], b[k], d)
    ensures Close(Median(a), Median(b), d)
  {
    MedianMonotone(b, Shift(a, d));
    MedianShift(a, Shift(a, d), d);
    MedianMonotone(Shift(a, -d), b);
    MedianShift(a, Shift(a, -d), -d);
  }

  lemma SliceOneMore(points: seq<real>, a: nat, b: nat)
    requires a <= b < |points|
    ensures points[a..b + 1] == points[a..b] + [points[b]]
    ensures points[a..b + 1] == [points[a]] + points[a + 1..b + 1]
  {
  }

  lemma GrowsRight(points: seq<real>, half: nat, i: nat)
    requires 0 < i < |points|
    requires Start(half, i - 1) == Start(half, i) && End(half, i - 1, |points|) != End(half, i, |points|)
    ensures End(half, i - 1, |points|) < |points|
    ensures Window(points, half, i) == Window(points, half, i - 1) + [points[End(half, i - 1, |points|)]]
  {
    SliceOneMore(points, Start(half, i), End(half, i - 1, |points|));
  }

  lemma ShrinksLeft(points: seq<real>, half: nat, i: nat)
    requires 0 < i < |points|
    requires Start(half, i - 1) != Start(half, i) && End(half, i - 1, |points|) == End(half, i, |points|)
    ensures Window(points, half, i - 1) == [points[Start(half, i - 1)]] + Window(points, half, i)
  {
    var a, b := Start(half, i - 1), End(half, i, |points|);
    assert a + 1 == Start(half, i) && a < b <= |points|;
    SliceOneMore(points, a, b - 1);
  }

  lemma Slides(points: seq<real>, half: nat, i: nat, d: real)
    requires 0 < i < |points| && StepsWithin(points, d)
    requires Start(half, i - 1) != Start(half, i) && End(half, i - 1, |points|) != End(half, i, |points|)
    ensures var a, b := Window(points, half, i - 1), Window(points, half, i);
            |a| == |b| && forall k :: 0 <= k < |a| ==> Close(a[k], b[k], d)
  {
    var start, b := Start(half, i), Window(points, half, i);
    forall k | 0 <= k < |b|
      ensures Close(points[start + k - 1], b[k], d)
    {
    }
  }

  lemma WindowSteps(points: seq<real>, half: nat, i: nat, d: real)
    requires i < |points| && StepsWithin(points, d)
    ensures StepsWithin(Window(points, half, i), d)
  {
  }

  /** The medians of the windows around two neighbouring samples are at most d apart. */
  ghost predicate MediansClose(points: seq<real>, half: nat, i: nat, d: real)
    requires 0 < i < |points|
  {
    Close(Median(Window(points, half, i - 1)), Median(Window(points, half, i)), d)
  }

  lemma CloseWhereItGrows(points: seq<real>, half: nat, i: nat, d: real)
    requires 0 < i < |points| && d >= 0.0 && StepsWithin(points, d)
    requires Start(half, i - 1) == Start(half, i) && End(half, i - 1, |points|) != End(half, i, |points|)
    ensures MediansClose(points, half, i, d)
  {
    GrowsRight(points, half, i);
    WindowSteps(points, half, i - 1, d);
    WindowSteps(points, half, i, d);
    GrowingWindow(Window(points, half, i - 1), Window(points, half, i), points[End(half, i - 1, |points|)], d);
  }

  lemma CloseWhereItShrinks(points: seq<real>, half: nat, i: nat, d: real)
    requires 0 < i < |points| && d >= 0.0 && StepsWithin(points, d)
    requires Start(half, i - 1) != Start(half, i) && End(half, i - 1, |points|) == End(half, i, |points|)
    ensures MediansClose(points, half, i, d)
  {
    ShrinksLeft(points, half, i);
    WindowSteps(points, half, i - 1, d);
    WindowSteps(points, half, i, d);
    GrowingWindow(Window(points, half, i), Window(points, half, i - 1), points[Start(half, i - 1)], d);
  }

  lemma CloseWhereItSlides(points: seq<real>, half: nat, i: nat, d: real)
    requires 0 < i < |points| && d >= 0.0 && StepsWithin(points, d)
    requires Start(half, i - 1) != Start(half, i) && End(half, i - 1, |points|) != End(half, i, |points|)
    ensures MediansClose(points, half, i, d)
  {
    Slides(points, half, i, d);
    SlidingWindow(Window(points, half, i - 1), Window(points, half, i), d);
  }

  /** From one sample to the next the window stays, grows at the right, shrinks at the left, or slides. */
  lemma WindowMediansClose(points: seq<real>, half: nat, i: nat, d: real)
    requires 0 < i < |points| && d >= 0.0 && StepsWithin(points, d)
    ensures Close(Median(Window(points, half, i - 1)), Median(Window(points, half, i)), d)
  {
    var n := |points|;
    if Start(half, i - 1) == Start(half, i) {
      if End(half, i - 1, n) != End(half, i, n) {
        CloseWhereItGrows(points, half, i, d);
      }
    } else if End(half, i - 1, n) == End(half, i, n) {
      CloseWhereItShrinks(points, half, i, d);
    } else {
      CloseWhereItSlides(points, half, i, d);
    }
  }

  lemma FilteredStep(points: seq<real>, half: nat, i: nat, d: real)
    requires 0 < i < |points| && d >= 0.0 && StepsWithin(points, d)
    ensures Close(Filtered(points, half)[i - 1], Filtered(points, half)[i], d)
  {
    WindowMediansClose(points, half, i, d);
    FilteredAt(points, half, i - 1);
    FilteredAt(points, half, i);
  }

  /** The filter never creates a step larger than the largest step of the raw trace. */
  lemma {:induction false} DenoisingNeverSharpens(points: seq<real>, half: nat)
    ensures LargestStep(Filtered(points, half)) <= LargestStep(points)
  {
    var d := LargestStep(points);
    LargestStepIff(points, d);
    forall i | 0 < i < |points|
      ensures Filtered(points, half)[i - 1] - d <= Filtered(points, half)[i] <= Filtered(points, half)[i - 1] + d
    {
      FilteredStep(points, half, i, d);
    }
    LargestStepIff(Filtered(points, half), d);
  }
}
