/** middleware/middleware.go: the fixed-window rate limiter with its lazy sweep. */
module RateLimit {

  /** Go's zero time.Time; a visitor that is not in the map reads as expiring then. */
  const ZERO_TIME := 0

  datatype Visitor = Visitor(count: int, expiresAt: int)

  datatype Limiter = Limiter(limit: int, window: int, visitors: map<string, Visitor>, lastSweep: int)

  datatype Call = Call(key: string, now: int)

  function Lookup(visitors: map<string, Visitor>, key: string): Visitor {
    if key in visitors then visitors[key] else Visitor(0, ZERO_TIME)
  }

  function Unexpired(visitors: map<string, Visitor>, now: int): map<string, Visitor> {
    map k | k in visitors && now <= visitors[k].expiresAt :: visitors[k]
  }

  function AfterSweep(l: Limiter, now: int): Limiter {
    if now - l.lastSweep > l.window then l.(visitors := Unexpired(l.visitors, now), lastSweep := now) else l
  }

  predicate Live(v: Visitor, now: int) {
    v.expiresAt != ZERO_TIME && now <= v.expiresAt
  }

  /** The visitor's window at this instant, freshly opened when there is none. */
  function WindowAt(v: Visitor, now: int, window: int): Visitor {
    if Live(v, now) then v else Visitor(0, now + window)
  }

  /** The decision, and the limiter it leaves, if nothing is ever swept. */
  function Decide(l: Limiter, call: Call): (Limiter, bool) {
    var current := WindowAt(Lookup(l.visitors, call.key), call.now, l.window);
    if current.count >= l.limit then (l, false)
    else (l.(visitors := l.visitors[call.key := current.(count := current.count + 1)]), true)
  }

  function SweepAndDecide(l: Limiter, call: Call): (Limiter, bool) {
    Decide(AfterSweep(l, call.now), call)
  }

  class RateLimiter {
    const limit: int
    const window: int
    var visitors: map<string, Visitor>
    var lastSweep: int

    function Value(): Limiter
      reads this
    {
      Limiter(limit, window, visitors, lastSweep)
    }

    constructor (limit: int, window: int, now: int)
      ensures Value() == Limiter(limit, window, map[], now)
    {
      this.limit, this.window := limit, window;
      visitors, lastSweep := map[], now;
    }

    method Allow(key: string, now: int) returns (granted: bool)
      modifies this
      ensures (Value(), granted) == SweepAndDecide(old(Value()), Call(key, now))
    {
      if now - lastSweep > window {
        Sweep(now);
        lastSweep := now;
      }
      var current := if key in visitors then visitors[key] else Visitor(0, ZERO_TIME);
      if current.expiresAt == ZERO_TIME || now > current.expiresAt {
        current := Visitor(0, now + window);
      }
      if current.count >= limit {
        return false;
      }
      visitors := visitors[key := current.(count := current.count + 1)];
      return true;
    }

    /** The deleting loop over the visitors, in any order. */
    method Sweep(now: int)
      modifies `visitors
      ensures visitors == Unexpired(old(visitors), now)
    {
      var keys := visitors.Keys;
      while keys != {}
        invariant keys <= visitors.Keys <= old(visitors).Keys
        invariant forall k :: k in visitors ==> visitors[k] == old(visitors)[k]
        invariant forall k :: k in old(visitors) && k !in keys ==> (k in visitors <==> now <= old(visitors)[k].expiresAt)
        decreases |keys|
      {
        var k :| k in keys;
        keys := keys - {k};
        if now > visitors[k].expiresAt {
          visitors := visitors - {k};
        }
      }
    }
  }

  // ----- the sweep is unobservable -----

  function Decisions(l: Limiter, calls: seq<Call>): seq<bool>
    decreases |calls|
  {
    if calls == [] then []
    else var (next, granted) := SweepAndDecide(l, calls[0]); [granted] + Decisions(next, calls[1..])
  }

  function UnsweptDecisions(l: Limiter, calls: seq<Call>): seq<bool>
    decreases |calls|
  {
    if calls == [] then []
    else var (next, granted) := Decide(l, calls[0]); [granted] + UnsweptDecisions(next, calls[1..])
  }

  ghost predicate NonDecreasing(calls: seq<Call>) {
    forall i, j :: 0 <= i < j < |calls| ==> calls[i].now <= calls[j].now
  }

  /** The swept limiter lacks only visitors that the other one keeps; every stored visitor has been granted a call. */
  ghost predicate SweptVersion(swept: Limiter, full: Limiter) {
    && swept.limit == full.limit && swept.window == full.window
    && (forall k :: k in full.visitors ==> full.visitors[k].count > 0)
    && forall k :: k in swept.visitors ==> k in full.visitors && swept.visitors[k] == full.visitors[k]
  }

  /** ... and those had already expired at the given instant. */
  ghost predicate OnlyExpiredMissing(swept: Limiter, full: Limiter, now: int) {
    && SweptVersion(swept, full)
    && forall k :: k in full.visitors && k !in swept.visitors ==> full.visitors[k].expiresAt < now
  }

  /**
   The call goes back to a time at which its visitor, already swept, is still live in a limiter
   that never sweeps.
   */
  predicate Returns(swept: Limiter, full: Limiter, call: Call) {
    call.key in full.visitors && Live(full.visitors[call.key], call.now) && call.key !in swept.visitors
  }

  /** No call does so when both limiters answer the calls one after the other. */
  predicate NoReturn(swept: Limiter, full: Limiter, calls: seq<Call>)
    decreases |calls|
  {
    calls == []
    || (&& !Returns(swept, full, calls[0])
        && NoReturn(SweepAndDecide(swept, calls[0]).0, Decide(full, calls[0]).0, calls[1..]))
  }

  lemma StepAgrees(swept: Limiter, full: Limiter, call: Call)
    requires SweptVersion(swept, full) && !Returns(swept, full, call)
    ensures SweepAndDecide(swept, call).1 == Decide(full, call).1
    ensures SweptVersion(SweepAndDecide(swept, call).0, Decide(full, call).0)
  {
  }

  /** While no call returns to a swept window, the two limiters decide alike. */
  lemma {:induction false} NoReturnAgrees(swept: Limiter, full: Limiter, calls: seq<Call>)
    requires SweptVersion(swept, full) && NoReturn(swept, full, calls)
    ensures Decisions(swept, calls) == UnsweptDecisions(full, calls)
    decreases |calls|
  {
    if calls != [] {
      StepAgrees(swept, full, calls[0]);
      NoReturnAgrees(SweepAndDecide(swept, calls[0]).0, Decide(full, calls[0]).0, calls[1..]);
    }
  }

  lemma {:induction false} InOrderNoReturn(swept: Limiter, full: Limiter, calls: seq<Call>, since: int)
    requires NonDecreasing(calls) && OnlyExpiredMissing(swept, full, since)
    requires calls != [] ==> since <= calls[0].now
    ensures NoReturn(swept, full, calls)
    decreases |calls|
  {
    if calls != [] {
      StepAgrees(swept, full, calls[0]);
      InOrderNoReturn(SweepAndDecide(swept, calls[0]).0, Decide(full, calls[0]).0, calls[1..], calls[0].now);
    }
  }

  /** On clock readings that never go back the sweeping limiter decides every call as one that never sweeps. */
  lemma SweepUnobservable(l: Limiter, calls: seq<Call>)
    requires NonDecreasing(calls) && forall k :: k in l.visitors ==> l.visitors[k].count > 0
    ensures Decisions(l, calls) == UnsweptDecisions(l, calls)
  {
    if calls != [] {
      InOrderNoReturn(l, l, calls, calls[0].now);
      NoReturnAgrees(l, l, calls);
    }
  }

  // ----- exactly when the sweep shows -----

  /** The same call m times. */
  function Retry(call: Call, m: nat): seq<Call> {
    if m == 0 then [] else [call] + Retry(call, m - 1)
  }

  /** How many retries of the call the limiter still grants. */
  function Room(l: Limiter, call: Call): int {
    l.limit - WindowAt(Lookup(l.visitors, call.key), call.now, l.window).count
  }

  lemma RoomShrinks(l: Limiter, call: Call)
    requires l.window >= 0 && call.now > ZERO_TIME && Room(l, call) > 0
    ensures Decide(l, call).1 && Room(Decide(l, call).0, call) == Room(l, call) - 1
    ensures SweepAndDecide(l, call).1 && Room(SweepAndDecide(l, call).0, call) == Room(l, call) - 1
  {
    assert Room(AfterSweep(l, call.now), call) == Room(l, call);
  }

  lemma {:induction false} RetriesGranted(l: Limiter, call: Call, m: nat, i: nat)
    requires l.window >= 0 && call.now > ZERO_TIME && i < m <= Room(l, call)
    ensures |Decisions(l, Retry(call, m))| == m && Decisions(l, Retry(call, m))[i]
    decreases m
  {
    RoomShrinks(l, call);
    assert Retry(call, m)[1..] == Retry(call, m - 1);
    if m > 1 {
      RetriesGranted(SweepAndDecide(l, call).0, call, m - 1, if i > 0 then i - 1 else 0);
    }
  }

  lemma {:induction false} RetriesRunOut(l: Limiter, call: Call, m: nat)
    requires l.window >= 0 && call.now > ZERO_TIME && 0 <= Room(l, call) < m
    ensures |UnsweptDecisions(l, Retry(call, m))| == m && !UnsweptDecisions(l, Retry(call, m))[Room(l, call)]
    decreases m
  {
    assert Retry(call, m)[1..] == Retry(call, m - 1);
    GrantedCounts(Decide(l, call).0, Retry(call, m - 1), "", 0, 0);
    RetryLength(call, m - 1);
    if Room(l, call) > 0 {
      RoomShrinks(l, call);
      RetriesRunOut(Decide(l, call).0, call, m - 1);
    }
  }

  lemma {:induction false} RetryLength(call: Call, m: nat)
    ensures |Retry(call, m)| == m
  {
    if m > 0 {
      RetryLength(call, m - 1);
    }
  }

  /** A returning call shows the sweep when it is repeated as often as the limit. */
  lemma ReturnShows(swept: Limiter, full: Limiter, call: Call)
    requires SweptVersion(swept, full) && Sane(full) && full.limit > 0 && call.now > ZERO_TIME
    requires Returns(swept, full, call)
    ensures Decisions(swept, Retry(call, full.limit)) != UnsweptDecisions(full, Retry(call, full.limit))
  {
    assert Room(swept, call) == full.limit > Room(full, call) >= 0;
    RetriesGranted(swept, call, full.limit, Room(full, call));
    RetriesRunOut(full, call, full.limit);
  }

  lemma {:induction false} RetriesDoNotReturn(swept: Limiter, full: Limiter, call: Call, m: nat)
    requires SweptVersion(swept, full) && Sane(full) && call.now > ZERO_TIME && !Returns(swept, full, call)
    ensures NoReturn(swept, full, Retry(call, m))
    decreases m
  {
    if m > 0 {
      var calls := Retry(call, m);
      assert calls[0] == call && calls[1..] == Retry(call, m - 1);
      StepAgrees(swept, full, call);
      DecideFrame(full, call);
      RetriesDoNotReturn(SweepAndDecide(swept, call).0, Decide(full, call).0, call, m - 1);
    }
  }

  lemma {:induction false} RetriedStillNoReturn(swept: Limiter, full: Limiter, calls: seq<Call>, n: nat, m: nat)
    requires SweptVersion(swept, full) && Sane(full) && AfterZeroTime(calls) && NoReturn(swept, full, calls) && n < |calls|
    ensures NoReturn(swept, full, calls[..n] + Retry(calls[n], m))
    decreases n
  {
    if n == 0 {
      assert calls[..0] + Retry(calls[0], m) == Retry(calls[0], m);
      RetriesDoNotReturn(swept, full, calls[0], m);
    } else {
      var longer := calls[..n] + Retry(calls[n], m);
      assert longer[0] == calls[0] && longer[1..] == calls[1..][..n - 1] + Retry(calls[1..][n - 1], m);
      StepAgrees(swept, full, calls[0]);
      DecideFrame(full, calls[0]);
      RetriedStillNoReturn(SweepAndDecide(swept, calls[0]).0, Decide(full, calls[0]).0, calls[1..], n - 1, m);
    }
  }

  /** The calls up to the n-th, and that one repeated up to the limit. */
  function Retried(calls: seq<Call>, n: nat, limit: nat): seq<Call>
    requires n < |calls|
  {
    calls[..n] + Retry(calls[n], limit)
  }

  /** The sweep cannot be told by these calls, wherever the client stops to repeat the latest one. */
  ghost predicate Indistinguishable(swept: Limiter, full: Limiter, calls: seq<Call>, limit: nat) {
    forall n: nat :: n < |calls| ==> Decisions(swept, Retried(calls, n, limit)) == UnsweptDecisions(full, Retried(calls, n, limit))
  }

  lemma FirstIndistinguishable(swept: Limiter, full: Limiter, calls: seq<Call>, limit: nat)
    requires calls != [] && Indistinguishable(swept, full, calls, limit)
    ensures Decisions(swept, Retry(calls[0], limit)) == UnsweptDecisions(full, Retry(calls[0], limit))
  {
    assert Retried(calls, 0, limit) == Retry(calls[0], limit);
  }

  lemma LaterIndistinguishable(swept: Limiter, full: Limiter, calls: seq<Call>, limit: nat)
    requires calls != [] && Indistinguishable(swept, full, calls, limit)
    ensures Indistinguishable(SweepAndDecide(swept, calls[0]).0, Decide(full, calls[0]).0, calls[1..], limit)
  {
    forall n: nat | n < |calls[1..]|
      ensures Decisions(SweepAndDecide(swept, calls[0]).0, Retried(calls[1..], n, limit))
              == UnsweptDecisions(Decide(full, calls[0]).0, Retried(calls[1..], n, limit))
    {
      var longer := Retried(calls, n + 1, limit);
      assert longer[0] == calls[0] && longer[1..] == Retried(calls[1..], n, limit);
      assert Decisions(swept, longer)[1..] == UnsweptDecisions(full, longer)[1..];
    }
  }

  lemma {:induction false} IndistinguishableNoReturn(swept: Limiter, full: Limiter, calls: seq<Call>)
    requires SweptVersion(swept, full) && Sane(full) && full.limit > 0 && AfterZeroTime(calls)
    requires Indistinguishable(swept, full, calls, full.limit)
    ensures NoReturn(swept, full, calls)
    decreases |calls|
  {
    if calls != [] {
      FirstIndistinguishable(swept, full, calls, full.limit);
      assert !Returns(swept, full, calls[0]) by {
        if Returns(swept, full, calls[0]) {
          ReturnShows(swept, full, calls[0]);
        }
      }
      StepAgrees(swept, full, calls[0]);
      DecideFrame(full, calls[0]);
      LaterIndistinguishable(swept, full, calls, full.limit);
      IndistinguishableNoReturn(SweepAndDecide(swept, calls[0]).0, Decide(full, calls[0]).0, calls[1..]);
    }
  }

  /**
   Exactly when the sweep shows, on any readings: the calls cannot tell a sweeping limiter from one
   that never sweeps, however often the latest call is repeated, if and only if none of them
   returns to a window that has been swept.
   */
  lemma SweepUnobservableIff(l: Limiter, calls: seq<Call>)
    requires Sane(l) && l.limit > 0 && AfterZeroTime(calls)
    ensures Indistinguishable(l, l, calls, l.limit) <==> NoReturn(l, l, calls)
  {
    if NoReturn(l, l, calls) {
      forall n: nat | n < |calls|
        ensures Decisions(l, Retried(calls, n, l.limit)) == UnsweptDecisions(l, Retried(calls, n, l.limit))
      {
        RetriedStillNoReturn(l, l, calls, n, l.limit);
        NoReturnAgrees(l, l, Retried(calls, n, l.limit));
      }
    } else if Indistinguishable(l, l, calls, l.limit) {
      IndistinguishableNoReturn(l, l, calls);
    }
  }

  /** The clock is read before the lock is taken, so readings can go back; then a sweep can grant one call too many. */
  lemma BackwardClockShowsSweep()
    ensures exists l: Limiter, calls: seq<Call> :: l.visitors == map[] && Decisions(l, calls) != UnsweptDecisions(l, calls)
  {
    var l := Limiter(1, 10, map[], 1);
    var a, b, c := Call("a", 5), Call("b", 16), Call("a", 15);
    var calls := [a, b, c];
    assert calls[1..] == [b, c] && [b, c][1..] == [c];
    var swept, full := AfterTwo(l, a, b);
    assert Decisions(l, calls) == [true, true] + Decisions(swept, [c]);
    assert UnsweptDecisions(l, calls) == [true, true] + UnsweptDecisions(full, [c]);
    assert Decisions(swept, [c])[0] && !UnsweptDecisions(full, [c])[0];
    assert Decisions(l, calls)[2] && !UnsweptDecisions(l, calls)[2];
  }

  lemma AfterTwo(l: Limiter, a: Call, b: Call) returns (swept: Limiter, full: Limiter)
    requires l == Limiter(1, 10, map[], 1) && a == Call("a", 5) && b == Call("b", 16)
    ensures swept == Limiter(1, 10, map["b" := Visitor(1, 26)], 16)
    ensures full == Limiter(1, 10, map["a" := Visitor(1, 15), "b" := Visitor(1, 26)], 1)
    ensures SweepAndDecide(l, a).1 && SweepAndDecide(SweepAndDecide(l, a).0, b) == (swept, true)
    ensures Decide(l, a).1 && Decide(Decide(l, a).0, b) == (full, true)
  {
    var l1 := Limiter(1, 10, map["a" := Visitor(1, 15)], 1);
    assert SweepAndDecide(l, a) == (l1, true) == Decide(l, a);
    assert Unexpired(l1.visitors, 16) == map[];
    swept := Limiter(1, 10, map["b" := Visitor(1, 26)], 16);
    full := Limiter(1, 10, map["a" := Visitor(1, 15), "b" := Visitor(1, 26)], 1);
    assert SweepAndDecide(l1, b) == (swept, true);
    assert Decide(l1, b) == (full, true);
  }

  // ----- what the sweep is for -----

  /** The sweeping limiter after the calls. */
  function After(l: Limiter, calls: seq<Call>): Limiter
    decreases |calls|
  {
    if calls == [] then l else After(SweepAndDecide(l, calls[0]).0, calls[1..])
  }

  /** No stored visitor had expired at the last sweep, which is at most a window ago. */
  ghost predicate SweptInTime(l: Limiter, now: int) {
    && l.lastSweep <= now <= l.lastSweep + l.window
    && forall k :: k in l.visitors ==> l.visitors[k].expiresAt >= l.lastSweep
  }

  lemma StepSweepsInTime(l: Limiter, call: Call)
    requires l.window >= 0 && l.lastSweep <= call.now && forall k :: k in l.visitors ==> l.visitors[k].expiresAt >= l.lastSweep
    ensures SweptInTime(SweepAndDecide(l, call).0, call.now) && SweepAndDecide(l, call).0.window == l.window
  {
  }

  /**
   On clock readings that never go back the limiter remembers only recent visitors: after any
   calls the window of each stored one has ended at most one window length before the last call.
   */
  lemma {:induction false} OnlyRecentVisitorsStay(l: Limiter, calls: seq<Call>)
    requires l.window >= 0 && NonDecreasing(calls) && calls != [] && l.lastSweep <= calls[0].now
    requires forall k :: k in l.visitors ==> l.visitors[k].expiresAt >= l.lastSweep
    ensures forall k :: k in After(l, calls).visitors ==>
              After(l, calls).visitors[k].expiresAt >= calls[|calls| - 1].now - l.window
    decreases |calls|
  {
    var next, rest := SweepAndDecide(l, calls[0]).0, calls[1..];
    StepSweepsInTime(l, calls[0]);
    if rest != [] {
      assert rest[|rest| - 1] == calls[|calls| - 1];
      OnlyRecentVisitorsStay(next, rest);
    } else {
      assert After(next, rest) == next;
    }
  }

  // ----- how many calls are granted -----

  /** How many of the calls with this key and a clock reading in [lo, hi] are granted. */
  function Granted(l: Limiter, calls: seq<Call>, key: string, lo: int, hi: int): nat
    decreases |calls|
  {
    if calls == [] then 0
    else
      var (next, granted) := Decide(l, calls[0]);
      (if granted && calls[0].key == key && lo <= calls[0].now <= hi then 1 else 0) + Granted(next, calls[1..], key, lo, hi)
  }

  function CountGranted(decisions: seq<bool>, calls: seq<Call>, key: string, lo: int, hi: int): nat
    requires |decisions| == |calls|
  {
    if calls == [] then 0
    else
      (if decisions[0] && calls[0].key == key && lo <= calls[0].now <= hi then 1 else 0)
      + CountGranted(decisions[1..], calls[1..], key, lo, hi)
  }

  lemma {:induction false} GrantedCounts(l: Limiter, calls: seq<Call>, key: string, lo: int, hi: int)
    ensures |UnsweptDecisions(l, calls)| == |calls|
    ensures CountGranted(UnsweptDecisions(l, calls), calls, key, lo, hi) == Granted(l, calls, key, lo, hi)
    decreases |calls|
  {
    if calls != [] {
      GrantedCounts(Decide(l, calls[0]).0, calls[1..], key, lo, hi);
    }
  }

  /** Clock readings come after Go's zero time, windows do not run backwards, counts stay within the limit. */
  ghost predicate Sane(l: Limiter) {
    && l.window >= 0
    && forall k :: k in l.visitors ==> 0 < l.visitors[k].count <= l.limit && l.visitors[k].expiresAt > ZERO_TIME
  }

  ghost predicate AfterZeroTime(calls: seq<Call>) {
    forall i :: 0 <= i < |calls| ==> calls[i].now > ZERO_TIME
  }

  function Capacity(l: Limiter): nat { if l.limit > 0 then l.limit else 0 }

  /** A call changes nothing but the entry of its own key, and a denied call changes nothing at all. */
  lemma DecideFrame(l: Limiter, call: Call)
    requires Sane(l) && call.now > ZERO_TIME
    ensures var (next, granted) := Decide(l, call);
            && Sane(next) && next.limit == l.limit && next.window == l.window
            && (!granted ==> next == l)
            && (forall k :: k != call.key ==> Lookup(next.visitors, k) == Lookup(l.visitors, k))
            && (granted ==> Lookup(next.visitors, call.key)
                            == var w := WindowAt(Lookup(l.visitors, call.key), call.now, l.window); w.(count := w.count + 1))
  {
  }

  lemma {:induction false} NoneAfter(l: Limiter, calls: seq<Call>, key: string, lo: int, hi: int)
    requires forall i :: 0 <= i < |calls| ==> calls[i].now > hi
    ensures Granted(l, calls, key, lo, hi) == 0
    decreases |calls|
  {
    if calls != [] {
      NoneAfter(Decide(l, calls[0]).0, calls[1..], key, lo, hi);
    }
  }

  /** Until a live window expires the key gets only what is left of its limit. */
  lemma {:induction false} RestOfWindow(l: Limiter, calls: seq<Call>, key: string, lo: int, hi: int)
    requires Sane(l) && NonDecreasing(calls) && AfterZeroTime(calls)
    requires key in l.visitors && hi <= l.visitors[key].expiresAt
    ensures Granted(l, calls, key, lo, hi) <= l.limit - l.visitors[key].count
    decreases |calls|
  {
    if calls != [] {
      DecideFrame(l, calls[0]);
      if calls[0].now > hi {
        NoneAfter(l, calls, key, lo, hi);
      } else {
        RestOfWindow(Decide(l, calls[0]).0, calls[1..], key, lo, hi);
      }
    }
  }

  /** A window opened by a call grants at most the limit while it lasts, that call included. */
  lemma OpenedWindowGrants(l: Limiter, calls: seq<Call>, key: string, lo: int, hi: int)
    requires Sane(l) && NonDecreasing(calls) && AfterZeroTime(calls) && calls != [] && calls[0].key == key
    requires !Live(Lookup(l.visitors, key), calls[0].now) && hi <= calls[0].now + l.window
    ensures Granted(l, calls, key, lo, hi) <= Capacity(l)
  {
    DecideFrame(l, calls[0]);
    var next := Decide(l, calls[0]).0;
    if Decide(l, calls[0]).1 {
      RestOfWindow(next, calls[1..], key, lo, hi);
    } else {
      NothingGranted(next, calls[1..], key, lo, hi);
    }
  }

  /** The same of the sweeping limiter's own decisions. */
  lemma WindowGrantsAtMostLimit(l: Limiter, calls: seq<Call>, key: string, lo: int, hi: int)
    requires Sane(l) && NonDecreasing(calls) && AfterZeroTime(calls) && calls != [] && calls[0].key == key
    requires !Live(Lookup(l.visitors, key), calls[0].now) && hi <= calls[0].now + l.window
    ensures |Decisions(l, calls)| == |calls|
    ensures CountGranted(Decisions(l, calls), calls, key, lo, hi) <= Capacity(l)
  {
    SweepUnobservable(l, calls);
    GrantedCounts(l, calls, key, lo, hi);
    OpenedWindowGrants(l, calls, key, lo, hi);
  }

  lemma {:induction false} NothingGranted(l: Limiter, calls: seq<Call>, key: string, lo: int, hi: int)
    requires Sane(l) && AfterZeroTime(calls) && l.limit <= 0
    ensures Granted(l, calls, key, lo, hi) == 0
    decreases |calls|
  {
    if calls != [] {
      DecideFrame(l, calls[0]);
      NothingGranted(Decide(l, calls[0]).0, calls[1..], key, lo, hi);
    }
  }

  /** From a window that is still known, one more can open before hi. */
  lemma {:induction false} TwoWindows(l: Limiter, calls: seq<Call>, key: string, lo: int, hi: int)
    requires Sane(l) && NonDecreasing(calls) && AfterZeroTime(calls)
    requires key in l.visitors && hi <= l.visitors[key].expiresAt + l.window
    ensures Granted(l, calls, key, lo, hi) <= 2 * l.limit - l.visitors[key].count
    decreases |calls|
  {
    if calls != [] {
      DecideFrame(l, calls[0]);
      if calls[0].key == key && !Live(l.visitors[key], calls[0].now) {
        OpenedWindowGrants(l, calls, key, lo, hi);
      } else {
        TwoWindows(Decide(l, calls[0]).0, calls[1..], key, lo, hi);
      }
    }
  }

  /** A window still open at the start of the interval has spent at least one call before it. */
  function IntervalBound(limit: int): nat { if limit > 0 then 2 * limit - 1 else 0 }

  lemma {:induction false} AnyIntervalFrom(l: Limiter, calls: seq<Call>, key: string, lo: int, hi: int)
    requires Sane(l) && NonDecreasing(calls) && AfterZeroTime(calls) && hi <= lo + l.window
    ensures Granted(l, calls, key, lo, hi) <= IntervalBound(l.limit)
    decreases |calls|
  {
    if calls != [] {
      var v := Lookup(l.visitors, key);
      DecideFrame(l, calls[0]);
      if calls[0].key != key || calls[0].now < lo {
        AnyIntervalFrom(Decide(l, calls[0]).0, calls[1..], key, lo, hi);
      } else if Live(v, calls[0].now) {
        TwoWindows(l, calls, key, lo, hi);
      } else {
        OpenedWindowGrants(l, calls, key, lo, hi);
      }
    }
  }

  /**
   In any closed interval as long as the window the limiter, sweeping, grants a key fewer than
   twice its limit.
   */
  lemma FewerThanTwiceTheLimit(limit: int, window: int, start: int, calls: seq<Call>, key: string, lo: int, hi: int)
    requires window >= 0 && NonDecreasing(calls) && AfterZeroTime(calls) && hi <= lo + window
    ensures var l := Limiter(limit, window, map[], start);
            && |Decisions(l, calls)| == |calls|
            && CountGranted(Decisions(l, calls), calls, key, lo, hi) <= IntervalBound(limit)
  {
    var l := Limiter(limit, window, map[], start);
    SweepUnobservable(l, calls);
    GrantedCounts(l, calls, key, lo, hi);
    AnyIntervalFrom(l, calls, key, lo, hi);
  }

  /** m calls at one clock reading, then others. */
  function Burst(m: nat, now: int, rest: seq<Call>): seq<Call> {
    if m == 0 then rest else [Call("a", now)] + Burst(m - 1, now, rest)
  }

  ghost predicate NotBefore(calls: seq<Call>, now: int) {
    forall i :: 0 <= i < |calls| ==> calls[i].now >= now
  }

  lemma {:induction false} BurstInOrder(m: nat, now: int, rest: seq<Call>)
    requires NonDecreasing(rest) && NotBefore(rest, now)
    ensures NonDecreasing(Burst(m, now, rest)) && NotBefore(Burst(m, now, rest), now)
  {
    if m > 0 {
      BurstInOrder(m - 1, now, rest);
    }
  }

  /** Within a live window with room for m calls, m calls are granted. */
  lemma {:induction false} BurstIsGranted(l: Limiter, m: nat, now: int, rest: seq<Call>, lo: int, hi: int)
    requires "a" in l.visitors && Live(l.visitors["a"], now) && l.visitors["a"].count + m <= l.limit && lo <= now <= hi
    ensures var v := l.visitors["a"];
            Granted(l, Burst(m, now, rest), "a", lo, hi)
            == m + Granted(l.(visitors := l.visitors["a" := v.(count := v.count + m)]), rest, "a", lo, hi)
    decreases m
  {
    var v := l.visitors["a"];
    if m == 0 {
      assert l.visitors["a" := v.(count := v.count)] == l.visitors;
    } else {
      var calls := Burst(m, now, rest);
      assert calls[0] == Call("a", now) && calls[1..] == Burst(m - 1, now, rest);
      var next := Decide(l, calls[0]).0;
      BurstIsGranted(next, m - 1, now, rest, lo, hi);
      assert next.visitors["a" := v.(count := v.count + m)] == l.visitors["a" := v.(count := v.count + m)];
    }
  }

  /** A first call, the rest of its window at the last moment, and a whole window just after. */
  function Busiest(limit: nat, window: nat): seq<Call>
    requires limit > 0
  {
    [Call("a", 1)] + Burst(limit - 1, 1 + window, Burst(limit, 2 + window, []))
  }

  lemma BusiestInOrder(limit: nat, window: nat)
    requires limit > 0
    ensures NonDecreasing(Busiest(limit, window)) && AfterZeroTime(Busiest(limit, window))
  {
    var last := Burst(limit, 2 + window, []);
    BurstInOrder(limit, 2 + window, []);
    BurstInOrder(limit - 1, 1 + window, last);
  }

  lemma NewWindowGrants(l: Limiter, now: int, lo: int, hi: int)
    requires "a" in l.visitors && !Live(l.visitors["a"], now) && l.limit > 0 && l.window >= 0 && lo <= now <= hi && now > ZERO_TIME
    ensures Granted(l, Burst(l.limit, now, []), "a", lo, hi) == l.limit
  {
    var calls := Burst(l.limit, now, []);
    assert calls[0] == Call("a", now) && calls[1..] == Burst(l.limit - 1, now, []);
    BurstIsGranted(Decide(l, calls[0]).0, l.limit - 1, now, [], lo, hi);
  }

  /** For every limit and every positive window the bound is reached by some calls. */
  lemma IntervalBoundIsReached(limit: nat, window: nat)
    requires limit > 0 && window > 0
    ensures var l, calls := Limiter(limit, window, map[], 1), Busiest(limit, window);
            && NonDecreasing(calls) && AfterZeroTime(calls) && |Decisions(l, calls)| == |calls|
            && CountGranted(Decisions(l, calls), calls, "a", 1 + window, 1 + 2 * window) == IntervalBound(limit)
  {
    var calls, lo, hi := Busiest(limit, window), 1 + window, 1 + 2 * window;
    BusiestInOrder(limit, window);
    var last := Burst(limit, 2 + window, []);
    assert calls[1..] == Burst(limit - 1, lo, last);
    var l1 := Limiter(limit, window, map["a" := Visitor(1, 1 + window)], 1);
    assert Decide(Limiter(limit, window, map[], 1), calls[0]) == (l1, true);
    BurstIsGranted(l1, limit - 1, lo, last, lo, hi);
    var l2 := l1.(visitors := l1.visitors["a" := Visitor(limit, 1 + window)]);
    NewWindowGrants(l2, 2 + window, lo, hi);
    SweepUnobservable(Limiter(limit, window, map[], 1), calls);
    GrantedCounts(Limiter(limit, window, map[], 1), calls, "a", lo, hi);
  }
}
