/** Timestamp logs: the pure theory behind both window implementations. A log is pruned at a cut
    and then extended, oldest first; counts over an interval say how much of it survives. */
module SlidingWindow {

  /** The entries at or after the cut, in order. */
  function Keep(times: seq<int>, cut: int): (kept: seq<int>)
    ensures |kept| <= |times|
  {
    if times == [] then []
    else
      var last := times[|times| - 1];
      var kept := Keep(times[..|times| - 1], cut);
      if cut <= last then kept + [last] else kept
  }

  /** How many entries lie in the closed interval [lo, hi]. */
  function CountIn(times: seq<int>, lo: int, hi: int): (n: nat)
    ensures n <= |times|
  {
    if times == [] then 0
    else
      var last := times[|times| - 1];
      CountIn(times[..|times| - 1], lo, hi) + (if lo <= last <= hi then 1 else 0)
  }

  /** The log after a run of requests read at these times: prune at now - window, then append now. */
  function LogAfter(times: seq<int>, window: int): (log: seq<int>)
  {
    if times == [] then []
    else
      var now := times[|times| - 1];
      Keep(LogAfter(times[..|times| - 1], window), now - window) + [now]
  }

  ghost predicate AtMost(times: seq<int>, hi: int) {
    forall i :: 0 <= i < |times| ==> times[i] <= hi
  }

  ghost predicate NonDecreasing(times: seq<int>) {
    forall i, j :: 0 <= i < j < |times| ==> times[i] <= times[j]
  }

  /** No request is logged more than `skew` after a newer clock reading. */
  ghost predicate SkewedBy(times: seq<int>, skew: nat) {
    forall i, j :: 0 <= i < j < |times| ==> times[i] <= times[j] + skew
  }

  lemma KeepAppend(times: seq<int>, t: int, cut: int)
    ensures Keep(times + [t], cut) == if cut <= t then Keep(times, cut) + [t] else Keep(times, cut)
  {
    assert (times + [t])[..|times|] == times;
  }

  lemma CountAppend(times: seq<int>, t: int, lo: int, hi: int)
    ensures CountIn(times + [t], lo, hi) == CountIn(times, lo, hi) + (if lo <= t <= hi then 1 else 0)
  {
    assert (times + [t])[..|times|] == times;
  }

  lemma LogAppend(times: seq<int>, now: int, window: int)
    ensures LogAfter(times + [now], window) == Keep(LogAfter(times, window), now - window) + [now]
  {
    assert (times + [now])[..|times|] == times;
  }

  /** Pruning below an interval does not change the count inside it. */
  lemma {:induction false} KeepPreservesCount(times: seq<int>, cut: int, lo: int, hi: int)
    requires cut <= lo
    ensures CountIn(Keep(times, cut), lo, hi) == CountIn(times, lo, hi)
  {
    if times != [] {
      var init, last := times[..|times| - 1], times[|times| - 1];
      KeepPreservesCount(init, cut, lo, hi);
      if cut <= last { CountAppend(Keep(init, cut), last, lo, hi); }
    }
  }

  /** Pruning twice with growing cuts is pruning once with the last. */
  lemma {:induction false} KeepTwice(times: seq<int>, c1: int, c2: int)
    requires c1 <= c2
    ensures Keep(Keep(times, c1), c2) == Keep(times, c2)
  {
    if times != [] {
      var init, last := times[..|times| - 1], times[|times| - 1];
      KeepTwice(init, c1, c2);
      if c1 <= last { KeepAppend(Keep(init, c1), last, c2); }
    }
  }

  /** What survives a cut is exactly what the interval from the cut on counts. */
  lemma {:induction false} KeepLength(times: seq<int>, cut: int, hi: int)
    requires AtMost(times, hi)
    ensures |Keep(times, cut)| == CountIn(times, cut, hi)
  {
    if times != [] {
      var init, last := times[..|times| - 1], times[|times| - 1];
      KeepLength(init, cut, hi);
    }
  }

  /** A log that is wholly older than the cut prunes to nothing. */
  lemma {:induction false} KeepNothing(times: seq<int>, cut: int)
    requires AtMost(times, cut - 1)
    ensures Keep(times, cut) == []
  {
    if times != [] { KeepNothing(times[..|times| - 1], cut); }
  }

  /** Splitting an interval splits its count. */
  lemma {:induction false} CountSplit(times: seq<int>, lo: int, mid: int, hi: int)
    requires lo <= mid <= hi + 1
    ensures CountIn(times, lo, hi) == CountIn(times, lo, mid - 1) + CountIn(times, mid, hi)
  {
    if times != [] { CountSplit(times[..|times| - 1], lo, mid, hi); }
  }

  /** A log never forgets what is inside an interval as long as every prune so far stayed below it. */
  lemma {:induction false} LogCount(times: seq<int>, window: int, lo: int, hi: int)
    requires AtMost(times, lo + window)
    ensures CountIn(LogAfter(times, window), lo, hi) == CountIn(times, lo, hi)
  {
    hide Keep;
    if times != [] {
      var init, now := times[..|times| - 1], times[|times| - 1];
      LogCount(init, window, lo, hi);
      KeepPreservesCount(LogAfter(init, window), now - window, lo, hi);
      CountAppend(Keep(LogAfter(init, window), now - window), now, lo, hi);
    }
  }

  /** On a nondecreasing clock the incrementally pruned log is the declarative sliding window:
      every request of the whole history that is at most `window` old. */
  lemma {:induction false} LogIsWindow(times: seq<int>, window: nat)
    requires NonDecreasing(times) && times != []
    ensures LogAfter(times, window) == Keep(times, times[|times| - 1] - window)
  {
    var init, now := times[..|times| - 1], times[|times| - 1];
    if init == [] {
      assert times == [now];
    } else {
      var prev := init[|init| - 1];
      LogIsWindow(init, window);
      assert prev <= now;
      KeepTwice(init, prev - window, now - window);
      assert Keep(LogAfter(init, window), now - window) == Keep(init, now - window);
    }
  }

  /** Whether the i-th request of a run is answered "allowed". */
  predicate Admitted(times: seq<int>, window: int, limit: int, i: nat)
    requires i < |times|
  {
    |LogAfter(times[..i + 1], window)| <= limit
  }

  /** Reference meaning of an answer: a request is admitted exactly when it and all earlier requests,
      denied ones included, that are at most `window` old number no more than the limit. */
  lemma AdmittedMeans(times: seq<int>, window: nat, limit: int, i: nat)
    requires NonDecreasing(times) && i < |times|
    ensures Admitted(times, window, limit, i) <==> CountIn(times[..i + 1], times[i] - window, times[i]) <= limit
  {
    var run := times[..i + 1];
    LogIsWindow(run, window);
    KeepLength(run, times[i] - window, times[i]);
  }

  /** The times of the admitted requests among the first n. */
  function AdmittedTimes(times: seq<int>, window: int, limit: int, n: nat): (adm: seq<int>)
    requires n <= |times|
  {
    if n == 0 then []
    else
      var adm := AdmittedTimes(times, window, limit, n - 1);
      if Admitted(times, window, limit, n - 1) then adm + [times[n - 1]] else adm
  }

  lemma {:induction false} AdmittedAreRequests(times: seq<int>, window: int, limit: int, n: nat, lo: int, hi: int)
    requires n <= |times|
    ensures CountIn(AdmittedTimes(times, window, limit, n), lo, hi) <= CountIn(times[..n], lo, hi)
  {
    if n > 0 {
      AdmittedAreRequests(times, window, limit, n - 1, lo, hi);
      assert times[..n] == times[..n - 1] + [times[n - 1]];
      CountAppend(times[..n - 1], times[n - 1], lo, hi);
      CountAppend(AdmittedTimes(times, window, limit, n - 1), times[n - 1], lo, hi);
    }
  }

  /** The throttle bound of one log: however late requests are logged, up to `skew`, no interval
      shorter than the window by that skew holds more than `limit` admissions. */
  lemma {:induction false} WindowBound(times: seq<int>, window: nat, limit: nat, skew: nat, n: nat, lo: int, hi: int)
    requires SkewedBy(times, skew) && n <= |times|
    requires hi - lo + skew <= window
    ensures CountIn(AdmittedTimes(times, window, limit, n), lo, hi) <= limit
  {
    if n > 0 {
      var now := times[n - 1];
      WindowBound(times, window, limit, skew, n - 1, lo, hi);
      CountAppend(AdmittedTimes(times, window, limit, n - 1), now, lo, hi);
      if Admitted(times, window, limit, n - 1) && lo <= now <= hi {
        var run := times[..n];
        AdmittedAreRequests(times, window, limit, n, lo, hi);
        LogCount(run, window, lo, hi);
      }
    }
  }

  // ----- exactly how late logging may be

  /** No run logged at most `skew` late ever has more than the limit of admissions inside [lo, hi]. */
  ghost predicate NeverOverAdmits(window: nat, limit: nat, skew: nat, lo: int, hi: int) {
    forall times :: SkewedBy(times, skew) ==> CountIn(AdmittedTimes(times, window, limit, |times|), lo, hi) <= limit
  }

  /** The bound is tight: with a limit of two or more it needs the interval to be shorter than the window by the
      skew; with a limit of one the interval alone must fit, however late requests are logged. */
  lemma WindowBoundExactly(window: nat, limit: nat, skew: nat, lo: int, hi: int)
    requires lo <= hi
    ensures NeverOverAdmits(window, limit, skew, lo, hi)
       <==> limit == 0 || hi - lo + (if limit == 1 then 0 else skew) <= window
  {
    if limit == 0 || hi - lo + (if limit == 1 then 0 else skew) <= window {
      forall times | SkewedBy(times, skew) ensures CountIn(AdmittedTimes(times, window, limit, |times|), lo, hi) <= limit {
        if limit >= 2 {
          WindowBound(times, window, limit, skew, |times|, lo, hi);
        } else {
          FewAdmitted(times, window, limit, |times|, lo, hi);
        }
      }
    } else {
      var run := OverAdmittingRun(window, limit, skew, lo, hi);
      assert !(CountIn(AdmittedTimes(run, window, limit, |run|), lo, hi) <= limit);
    }
  }

  /** A limit of one admits only on an empty log, and the newest reading never leaves the log. */
  lemma {:induction false} FewAdmitted(times: seq<int>, window: nat, limit: nat, n: nat, lo: int, hi: int)
    requires n <= |times| && limit <= 1 && (limit == 1 ==> hi - lo <= window)
    ensures CountIn(AdmittedTimes(times, window, limit, n), lo, hi) <= limit
    ensures CountIn(AdmittedTimes(times, window, limit, n), lo, hi) > 0 ==>
              exists t :: t in LogAfter(times[..n], window) && lo <= t
  {
    hide Keep, CountIn, LogAfter, AdmittedTimes;
    if n == 0 {
      Nothing(times, window, limit, lo, hi);
    } else {
      var now, log := times[n - 1], LogAfter(times[..n - 1], window);
      FewAdmitted(times, window, limit, n - 1, lo, hi);
      AdmitNext(times, window, limit, n - 1, log);
      CountAdmitted(times, window, limit, n - 1, lo, hi);
      assert LogAfter(times[..n], window) == Keep(log, now - window) + [now];
      assert now in LogAfter(times[..n], window);
      if t :| t in log && lo <= t && now - window <= t {
        KeepHolds(log, now - window, t);
        assert t in LogAfter(times[..n], window);
      }
    }
  }

  lemma {:induction false} KeepHolds(times: seq<int>, cut: int, t: int)
    requires t in times && cut <= t
    ensures t in Keep(times, cut)
  {
    if t != times[|times| - 1] { KeepHolds(times[..|times| - 1], cut, t); }
  }

  function Copies<T>(n: nat, t: T): (run: seq<T>)
    ensures |run| == n && forall i :: 0 <= i < n ==> run[i] == t
  {
    seq(n, i => t)
  }

  /** The limit is used up at lo. If the window has passed by hi, one more goes through there; if not, a request
      read `skew` later is logged before the one at hi and clears the log for it. */
  lemma OverAdmittingRun(window: nat, limit: nat, skew: nat, lo: int, hi: int) returns (run: seq<int>)
    requires lo <= hi && limit >= 1 && hi - lo + (if limit == 1 then 0 else skew) > window
    ensures SkewedBy(run, skew) && CountIn(AdmittedTimes(run, window, limit, |run|), lo, hi) > limit
  {
    var tail := if hi - lo > window then [hi] else [hi + skew, hi];
    run := Copies(limit, lo) + tail;
    hide Keep, CountIn, LogAfter, AdmittedTimes;
    CopiesAdmitted(run, window, limit, limit, lo, hi);
    KeepNothing(Copies(limit, lo), tail[0] - window);
    AdmitNext(run, window, limit, limit, Copies(limit, lo));
    CountAdmitted(run, window, limit, limit, lo, hi);
    if hi - lo <= window {
      KeepOne(hi + skew, hi - window);
      AdmitNext(run, window, limit, limit + 1, [hi + skew]);
      CountAdmitted(run, window, limit, limit + 1, lo, hi);
    }
  }

  lemma {:induction false} CopiesAdmitted(run: seq<int>, window: nat, limit: nat, n: nat, lo: int, hi: int)
    requires n <= limit && lo <= hi && n <= |run| && forall i :: 0 <= i < n ==> run[i] == lo
    ensures LogAfter(run[..n], window) == Copies(n, lo)
    ensures CountIn(AdmittedTimes(run, window, limit, n), lo, hi) == n
  {
    hide Keep, CountIn, LogAfter, AdmittedTimes;
    if n == 0 {
      Nothing(run, window, limit, lo, hi);
    } else {
      CopiesAdmitted(run, window, limit, n - 1, lo, hi);
      KeepAll(Copies(n - 1, lo), lo - window);
      AdmitNext(run, window, limit, n - 1, Copies(n - 1, lo));
      CountAdmitted(run, window, limit, n - 1, lo, hi);
      assert Copies(n - 1, lo) + [lo] == Copies(n, lo);
    }
  }

  lemma {:induction false} KeepAll(times: seq<int>, cut: int)
    requires forall i :: 0 <= i < |times| ==> cut <= times[i]
    ensures Keep(times, cut) == times
  {
    if times != [] { KeepAll(times[..|times| - 1], cut); }
  }

  lemma Nothing(run: seq<int>, window: int, limit: int, lo: int, hi: int)
    ensures LogAfter(run[..0], window) == Keep([], -window) == []
    ensures CountIn(AdmittedTimes(run, window, limit, 0), lo, hi) == 0
  {
  }

  lemma KeepOne(t: int, cut: int)
    requires cut <= t
    ensures Keep([t], cut) == [t]
  {
    assert [] + [t] == [t];
    KeepAppend([], t, cut);
  }

  /** One more request, given the log before it. */
  lemma AdmitNext(run: seq<int>, window: int, limit: int, i: nat, log: seq<int>)
    requires i < |run| && LogAfter(run[..i], window) == log
    ensures LogAfter(run[..i + 1], window) == Keep(log, run[i] - window) + [run[i]]
    ensures Admitted(run, window, limit, i) <==> |Keep(log, run[i] - window)| < limit
  {
    hide Keep, CountIn, LogAfter;
    assert run[..i + 1] == run[..i] + [run[i]];
    LogAppend(run[..i], run[i], window);
  }

  lemma CountAdmitted(run: seq<int>, window: int, limit: int, i: nat, lo: int, hi: int)
    requires i < |run|
    ensures CountIn(AdmittedTimes(run, window, limit, i + 1), lo, hi)
         == CountIn(AdmittedTimes(run, window, limit, i), lo, hi)
          + (if Admitted(run, window, limit, i) && lo <= run[i] <= hi then 1 else 0)
  {
    CountAppend(AdmittedTimes(run, window, limit, i), run[i], lo, hi);
  }
}
