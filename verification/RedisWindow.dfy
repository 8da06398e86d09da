/** One rate-limit key in Redis (internal/ratelimit/limiter.go:128-142): a sorted set of request times
    with a deadline, mutated by four-command pipelines that may fail after any prefix was applied. */
module RedisWindow {
  import opened Options
  import opened SlidingWindow

  /** The scores in order of addition, and when the key expires. An empty set is an absent key. */
  datatype ZKey = ZKey(scores: seq<int>, deadline: Option<int>)

  const ABSENT := ZKey([], None)
  const EXPIRE_SLACK := 1000  // milliseconds the key outlives its window

  /** What a command at time `now` finds under the key. */
  function Live(k: ZKey, now: int): ZKey {
    if k.deadline.Some? && k.deadline.value <= now then ABSENT else k
  }

  /** The scores outside [0, max], in order. */
  function Outside(scores: seq<int>, max: int): seq<int> {
    if scores == [] then []
    else
      var last, rest := scores[|scores| - 1], Outside(scores[..|scores| - 1], max);
      if 0 <= last <= max then rest else rest + [last]
  }

  function ZRemRangeByScore(k: ZKey, max: int): ZKey {
    var left := Outside(k.scores, max);
    if left == [] then ABSENT else k.(scores := left)
  }

  function ZAdd(k: ZKey, score: int): ZKey {
    k.(scores := k.scores + [score])
  }

  function Expire(k: ZKey, deadline: int): ZKey {
    if k.scores == [] then k else k.(deadline := Some(deadline))
  }

  /** The key after the first n of the four commands, all executed at `now`; ZCARD is the third. */
  function Commands(k: ZKey, now: int, window: int, n: nat): ZKey {
    if n == 0 then k
    else
      var pruned := ZRemRangeByScore(Live(k, now), now - window);
      if n == 1 then pruned
      else if n <= 3 then ZAdd(pruned, now)
      else Expire(ZAdd(pruned, now), now + window + EXPIRE_SLACK)
  }

  /** A pipeline: how many commands took effect, and whether the caller saw it succeed. */
  datatype Pipe = Pipe(now: int, applied: nat, ok: bool)

  ghost predicate Plausible(pipes: seq<Pipe>) {
    && (forall i :: 0 <= i < |pipes| ==> 0 <= pipes[i].now && pipes[i].applied <= 4 && (pipes[i].ok ==> pipes[i].applied == 4))
    && (forall i, j :: 0 <= i < j < |pipes| ==> pipes[i].now <= pipes[j].now)
  }

  /** No failed pipeline stopped between its ZADD and its EXPIRE. */
  ghost predicate NoneTorn(pipes: seq<Pipe>) {
    forall i :: 0 <= i < |pipes| ==> pipes[i].applied != 2 && pipes[i].applied != 3
  }

  function After(pipes: seq<Pipe>, window: int): ZKey {
    if pipes == [] then ABSENT
    else
      var p := pipes[|pipes| - 1];
      Commands(After(pipes[..|pipes| - 1], window), p.now, window, p.applied)
  }

  /** One more pipeline. */
  function With(pipes: seq<Pipe>, pipe: Pipe): seq<Pipe> { pipes + [pipe] }

  lemma PlausibleWith(pipes: seq<Pipe>, pipe: Pipe)
    requires Plausible(pipes) && 0 <= pipe.now && pipe.applied <= 4 && (pipe.ok ==> pipe.applied == 4)
    requires pipes != [] ==> pipes[|pipes| - 1].now <= pipe.now
    ensures Plausible(With(pipes, pipe))
    ensures NoneTorn(pipes) && pipe.applied != 2 && pipe.applied != 3 ==> NoneTorn(With(pipes, pipe))
  {
  }

  lemma AfterWith(pipes: seq<Pipe>, pipe: Pipe, window: nat)
    ensures var run := With(pipes, pipe);
            && |run| == |pipes| + 1 && run[|pipes|] == pipe && run[..|pipes|] == pipes
            && After(run, window) == Commands(After(pipes, window), pipe.now, window, pipe.applied)
  {
    assert With(pipes, pipe)[..|pipes|] == pipes;
  }

  /** The reading of ZCARD in the i-th pipeline, compared with the limit. */
  predicate Allowed(pipes: seq<Pipe>, window: int, limit: int, i: nat)
    requires i < |pipes|
  {
    pipes[i].ok && |After(pipes[..i + 1], window).scores| <= limit
  }

  /** The times logged by pipelines that got as far as their ZADD. */
  function Logged(pipes: seq<Pipe>): seq<int> {
    if pipes == [] then []
    else
      var p, before := pipes[|pipes| - 1], Logged(pipes[..|pipes| - 1]);
      if 2 <= p.applied then before + [p.now] else before
  }

  /** The times of the requests admitted among the first n pipelines. */
  function AdmittedNows(pipes: seq<Pipe>, window: int, limit: int, n: nat): seq<int>
    requires n <= |pipes|
  {
    if n == 0 then []
    else
      var before := AdmittedNows(pipes, window, limit, n - 1);
      if Allowed(pipes, window, limit, n - 1) then before + [pipes[n - 1].now] else before
  }

  ghost predicate NonNegative(times: seq<int>) {
    forall i :: 0 <= i < |times| ==> 0 <= times[i]
  }

  /** Removing the scores up to `max` is keeping the ones after it, as no score is negative. */
  lemma {:induction false} OutsideIsKeep(scores: seq<int>, max: int)
    requires NonNegative(scores)
    ensures Outside(scores, max) == Keep(scores, max + 1) && NonNegative(Outside(scores, max))
  {
    if scores != [] { OutsideIsKeep(scores[..|scores| - 1], max); }
  }

  // ----- whole pipelines: expiry never shows -----

  /** The set holds whatever was logged within the window. */
  ghost predicate Whole(k: ZKey, logged: seq<int>, last: int, window: nat) {
    && NonNegative(k.scores)
    && (forall cut {:trigger Keep(k.scores, cut)} :: last - window < cut ==> Keep(k.scores, cut) == Keep(logged, cut))
  }

  lemma WholePruned(k: ZKey, logged: seq<int>, now: int, window: nat)
    requires Whole(k, logged, now, window)
    ensures Whole(ZRemRangeByScore(k, now - window), logged, now, window)
    ensures ZRemRangeByScore(k, now - window).scores == Keep(logged, now - window + 1)
  {
    hide Keep;
    OutsideIsKeep(k.scores, now - window);
    forall cut | now - window < cut ensures Keep(Keep(k.scores, now - window + 1), cut) == Keep(logged, cut) {
      KeepTwice(k.scores, now - window + 1, cut);
    }
  }

  lemma WholeAdded(k: ZKey, logged: seq<int>, now: int, window: nat)
    requires Whole(k, logged, now, window) && 0 <= now
    ensures Whole(ZAdd(k, now), logged + [now], now, window)
    ensures Whole(Expire(ZAdd(k, now), now + window + EXPIRE_SLACK), logged + [now], now, window)
  {
    forall cut | now - window < cut ensures Keep(k.scores + [now], cut) == Keep(logged + [now], cut) {
      KeepAppend(k.scores, now, cut);
      KeepAppend(logged, now, cut);
    }
  }

  lemma AbsentWhole(now: int, window: nat)
    ensures Whole(ABSENT, [], now, window)
  {
  }

  lemma WholeStays(k: ZKey, logged: seq<int>, last: int, window: nat, now: int)
    requires Whole(k, logged, last, window) && last <= now
    ensures Whole(k, logged, now, window)
  {
  }

  /** And no deadline comes before what was logged has left the window. */
  ghost predicate Complete(k: ZKey, logged: seq<int>, last: int, window: nat) {
    && Whole(k, logged, last, window)
    && (k.deadline.Some? ==> AtMost(logged, k.deadline.value - window - EXPIRE_SLACK))
  }

  lemma CompleteLive(k: ZKey, logged: seq<int>, last: int, window: nat, now: int)
    requires Complete(k, logged, last, window) && last <= now
    ensures Complete(Live(k, now), logged, now, window)
  {
    if Live(k, now) != k {
      forall cut | now - window < cut ensures Keep([], cut) == Keep(logged, cut) {
        KeepNothing(logged, cut);
      }
    }
  }

  lemma CompletePruned(k: ZKey, logged: seq<int>, now: int, window: nat)
    requires Complete(k, logged, now, window)
    ensures Complete(ZRemRangeByScore(k, now - window), logged, now, window)
    ensures ZRemRangeByScore(k, now - window).scores == Keep(logged, now - window + 1)
  {
    hide Whole, Outside;
    WholePruned(k, logged, now, window);
  }

  lemma CompleteAdded(k: ZKey, logged: seq<int>, now: int, window: nat)
    requires Complete(k, logged, now, window) && AtMost(logged, now) && 0 <= now
    ensures Complete(Expire(ZAdd(k, now), now + window + EXPIRE_SLACK), logged + [now], now, window)
  {
    hide Whole;
    WholeAdded(k, logged, now, window);
  }

  /** A pipeline that was not torn keeps the set complete. */
  lemma CompleteCommands(k: ZKey, logged: seq<int>, last: int, window: nat, now: int, n: nat)
    requires Complete(k, logged, last, window) && last <= now && AtMost(logged, now) && 0 <= now
    requires n <= 4 && n != 2 && n != 3
    ensures Complete(Commands(k, now, window, n), if n == 4 then logged + [now] else logged, now, window)
    ensures n == 4 ==> Commands(k, now, window, n).scores == Keep(logged, now - window + 1) + [now]
  {
    hide Keep, Complete, Outside;
    CompleteLater(k, logged, last, window, now);
    CompleteLive(k, logged, last, window, now);
    CompletePruned(Live(k, now), logged, now, window);
    CompleteAdded(ZRemRangeByScore(Live(k, now), now - window), logged, now, window);
  }

  lemma {:induction false} RunComplete(pipes: seq<Pipe>, window: nat)
    requires Plausible(pipes) && NoneTorn(pipes) && pipes != []
    ensures Complete(After(pipes, window), Logged(pipes), pipes[|pipes| - 1].now, window)
    ensures AtMost(Logged(pipes), pipes[|pipes| - 1].now)
    ensures pipes[|pipes| - 1].applied == 4 ==>
              After(pipes, window).scores == Keep(Logged(pipes[..|pipes| - 1]), pipes[|pipes| - 1].now - window + 1)
                                             + [pipes[|pipes| - 1].now]
  {
    hide Keep, Complete, Commands;
    var before, p := pipes[..|pipes| - 1], pipes[|pipes| - 1];
    if before == [] {
      AbsentComplete(p.now, window);
      CompleteCommands(ABSENT, [], p.now, window, p.now, p.applied);
    } else {
      RunComplete(before, window);
      CompleteCommands(After(before, window), Logged(before), before[|before| - 1].now, window, p.now, p.applied);
    }
  }

  lemma AbsentComplete(now: int, window: nat)
    ensures Complete(ABSENT, [], now, window)
  {
  }

  lemma CompleteLater(k: ZKey, logged: seq<int>, last: int, window: nat, now: int)
    requires Complete(k, logged, last, window) && last <= now
    ensures Complete(k, logged, now, window)
  {
  }

  lemma PlausiblePrefix(pipes: seq<Pipe>, n: nat)
    requires Plausible(pipes) && NoneTorn(pipes) && n <= |pipes|
    ensures Plausible(pipes[..n]) && NoneTorn(pipes[..n])
  {
  }

  lemma LoggedBefore(pipes: seq<Pipe>, window: nat, i: nat)
    requires Plausible(pipes) && NoneTorn(pipes) && i < |pipes|
    ensures AtMost(Logged(pipes[..i]), pipes[i].now)
  {
    PlausiblePrefix(pipes, i);
    if i > 0 {
      var before := pipes[..i];
      assert before[i - 1].now <= pipes[i].now;
      hide Complete, Keep, After, Logged, Plausible, NoneTorn;
      RunComplete(before, window);
    }
  }

  /** Reference meaning of a Redis answer: the deadline appears nowhere. A request is admitted exactly
      when it and the logged requests strictly less than a window old number no more than the limit. */
  lemma RedisAnswerMeans(pipes: seq<Pipe>, window: nat, limit: int, i: nat)
    requires Plausible(pipes) && NoneTorn(pipes) && i < |pipes| && pipes[i].ok
    ensures Allowed(pipes, window, limit, i) <==>
            1 + CountIn(Logged(pipes[..i]), pipes[i].now - window + 1, pipes[i].now) <= limit
  {
    CountAfter(pipes, window, i);
    LoggedBefore(pipes, window, i);
    hide *;
    KeepLength(Logged(pipes[..i]), pipes[i].now - window + 1, pipes[i].now);
    AllowedCounts(pipes, window, limit, i);
  }

  lemma AllowedCounts(pipes: seq<Pipe>, window: nat, limit: int, i: nat)
    requires i < |pipes| && pipes[i].ok
    ensures Allowed(pipes, window, limit, i) <==> |After(pipes[..i + 1], window).scores| <= limit
  {
    hide After;
  }

  /** What the next whole pipeline of a history counts. */
  lemma NextAllowed(pipes: seq<Pipe>, now: nat, window: nat, limit: int)
    requires Plausible(pipes) && NoneTorn(pipes) && (pipes != [] ==> pipes[|pipes| - 1].now <= now)
    ensures |Commands(After(pipes, window), now, window, 4).scores| <= limit
            <==> 1 + CountIn(Logged(pipes), now - window + 1, now) <= limit
  {
    hide *;
    var pipe := Pipe(now, 4, true);
    PlausibleWith(pipes, pipe);
    AfterWith(pipes, pipe, window);
    LastAllowed(With(pipes, pipe), |pipes|, window, limit);
  }

  lemma LastAllowed(run: seq<Pipe>, i: nat, window: nat, limit: int)
    requires Plausible(run) && NoneTorn(run) && |run| == i + 1 && run[i].ok
    ensures |After(run, window).scores| <= limit
            <==> 1 + CountIn(Logged(run[..i]), run[i].now - window + 1, run[i].now) <= limit
  {
    hide *;
    assert run[..i + 1] == run;
    RedisAnswerMeans(run, window, limit, i);
    AllowedCounts(run, window, limit, i);
  }

  lemma CountAfter(pipes: seq<Pipe>, window: nat, i: nat)
    requires Plausible(pipes) && NoneTorn(pipes) && i < |pipes| && pipes[i].ok
    ensures |After(pipes[..i + 1], window).scores| == |Keep(Logged(pipes[..i]), pipes[i].now - window + 1)| + 1
  {
    var run := pipes[..i + 1];
    assert run[i] == pipes[i] && run[..i] == pipes[..i] && pipes[i].applied == 4;
    PlausiblePrefix(pipes, i + 1);
    hide *;
    RunComplete(run, window);
  }

  /** A torn pipeline can make the deadline show: with a window over a second, an entry added without
      renewing the deadline is wiped by the older deadline although the window still covers it. */
  lemma TornPipelineForgets(window: nat, pipes: seq<Pipe>)
    requires pipes == [Pipe(0, 4, true), Pipe(window - 1, 2, false), Pipe(window + 1000, 4, true)] && 1002 <= window
    ensures Plausible(pipes) && Allowed(pipes, window, 1, 2)
    ensures 1 + CountIn(Logged(pipes[..2]), pipes[2].now - window + 1, pipes[2].now) == 2
  {
    hide CountIn, Keep, Outside;
    var first, second := pipes[..1], pipes[..2];
    assert first[..0] == [] && second[..1] == first && pipes[..3] == pipes;
    assert pipes[..|pipes| - 1] == second && second[..|second| - 1] == first && second[|second| - 1] == pipes[1];
    OutsideOne(0, 0 - window);
    OutsideOne(0, -1);
    assert After(first, window) == ZKey([0], Some(window + 1000));
    assert After(second, window) == ZKey([0] + [window - 1], Some(window + 1000));
    assert Logged([]) == [] && first[..|first| - 1] == [] && first[|first| - 1] == pipes[0];
    assert Logged(first) == [] + [0];
    assert Logged(second) == [] + [0] + [window - 1];
    CountAppend([] + [0], window - 1, 1001, window + 1000);
    CountAppend([], 0, 1001, window + 1000);
    NothingLeft(window, 1000);
  }

  lemma OutsideOne(score: int, max: int)
    requires max < score
    ensures Outside([score], max) == [score] && Outside([], max) == []
  {
    assert [score][..0] == [];
    assert [] + [score] == [score];
  }

  lemma NothingLeft(window: nat, max: int)
    ensures Outside([], max) == [] && CountIn([], max + 1, window + max) == 0
  {
  }

  // ----- any pipelines: the throttle still holds -----

  /** Whatever was torn, admitted requests inside the window are still in the set. */
  ghost predicate Covers(k: ZKey, adm: seq<int>, last: int, window: nat) {
    && NonNegative(k.scores)
    && (k.deadline.Some? ==> AtMost(adm, k.deadline.value - window - EXPIRE_SLACK))
    && (forall lo, hi :: last - window < lo ==> CountIn(adm, lo, hi) <= CountIn(k.scores, lo, hi))
  }

  lemma {:induction false} NoneInside(times: seq<int>, lo: int, hi: int)
    requires AtMost(times, lo - 1)
    ensures CountIn(times, lo, hi) == 0
  {
    if times != [] { NoneInside(times[..|times| - 1], lo, hi); }
  }

  lemma CoversLater(k: ZKey, adm: seq<int>, last: int, window: nat, now: int)
    requires Covers(k, adm, last, window) && last <= now
    ensures Covers(k, adm, now, window) && Covers(Live(k, now), adm, now, window)
  {
    if Live(k, now) != k {
      forall lo, hi | now - window < lo ensures CountIn(adm, lo, hi) <= CountIn([], lo, hi) {
        NoneInside(adm, lo, hi);
      }
    }
  }

  lemma EmptyCounts()
    ensures forall lo, hi {:trigger CountIn([], lo, hi)} :: CountIn([], lo, hi) == 0
  {
  }

  lemma CoversPruned(k: ZKey, adm: seq<int>, now: int, window: nat)
    requires Covers(k, adm, now, window)
    ensures Covers(ZRemRangeByScore(k, now - window), adm, now, window)
  {
    hide Keep, CountIn, Outside;
    OutsideIsKeep(k.scores, now - window);
    var left := Keep(k.scores, now - window + 1);
    EmptyCounts();
    forall lo, hi | now - window < lo ensures CountIn(adm, lo, hi) <= CountIn(left, lo, hi) {
      KeepPreservesCount(k.scores, now - window + 1, lo, hi);
    }
  }

  lemma CoversAdded(k: ZKey, adm: seq<int>, now: int, window: nat)
    requires Covers(k, adm, now, window) && AtMost(adm, now) && 0 <= now
    ensures Covers(ZAdd(k, now), adm, now, window)
    ensures var k' := Expire(ZAdd(k, now), now + window + EXPIRE_SLACK);
            Covers(k', adm, now, window) && Covers(k', adm + [now], now, window)
  {
    forall lo, hi | now - window < lo
      ensures CountIn(adm, lo, hi) <= CountIn(k.scores + [now], lo, hi)
      ensures CountIn(adm + [now], lo, hi) <= CountIn(k.scores + [now], lo, hi)
    {
      CountAppend(k.scores, now, lo, hi);
      CountAppend(adm, now, lo, hi);
    }
  }

  lemma {:induction false} RunCovers(pipes: seq<Pipe>, window: nat, limit: int, n: nat)
    requires Plausible(pipes) && 0 < n <= |pipes|
    ensures Covers(After(pipes[..n], window), AdmittedNows(pipes, window, limit, n), pipes[n - 1].now, window)
    ensures AtMost(AdmittedNows(pipes, window, limit, n), pipes[n - 1].now)
  {
    hide Covers, Outside, Keep, CountIn;
    var p, k, adm := pipes[n - 1], After(pipes[..n - 1], window), AdmittedNows(pipes, window, limit, n - 1);
    assert pipes[..n][..n - 1] == pipes[..n - 1];
    if n == 1 {
      AbsentCovers(p.now, window);
    } else {
      RunCovers(pipes, window, limit, n - 1);
      CoversLater(k, adm, pipes[n - 2].now, window, p.now);
    }
    if p.applied > 0 {
      CoversPruned(Live(k, p.now), adm, p.now, window);
      CoversAdded(ZRemRangeByScore(Live(k, p.now), p.now - window), adm, p.now, window);
    }
  }

  lemma AbsentCovers(now: int, window: nat)
    ensures Covers(ABSENT, [], now, window)
  {
  }

  /** The throttle of the Redis path: through failures, torn pipelines and expiry, no half-open interval
      of window length ever holds more than the limit of admissions. */
  lemma {:induction false} RedisThrottle(pipes: seq<Pipe>, window: nat, limit: nat, n: nat, lo: int, hi: int)
    requires Plausible(pipes) && n <= |pipes| && hi - lo < window
    ensures CountIn(AdmittedNows(pipes, window, limit, n), lo, hi) <= limit
  {
    if n > 0 {
      hide Covers, Outside, Keep;
      var p := pipes[n - 1];
      RedisThrottle(pipes, window, limit, n - 1, lo, hi);
      CountAppend(AdmittedNows(pipes, window, limit, n - 1), p.now, lo, hi);
      if Allowed(pipes, window, limit, n - 1) && lo <= p.now <= hi {
        RunCovers(pipes, window, limit, n);
        CoversBound(After(pipes[..n], window), AdmittedNows(pipes, window, limit, n), p.now, window, lo, hi);
      }
    }
  }

  lemma CoversBound(k: ZKey, adm: seq<int>, last: int, window: nat, lo: int, hi: int)
    requires Covers(k, adm, last, window) && last - window < lo
    ensures CountIn(adm, lo, hi) <= |k.scores|
  {
  }

  /** The closed interval is one millisecond too long for Redis: under any limit, as many requests at 0 and as many
      at `window` are all admitted, because entries exactly a window old are dropped. */
  lemma ClosedIntervalOverAdmits(window: nat, limit: nat, pipes: seq<Pipe>, i: nat)
    requires 0 < window && pipes == Copies(limit, Pipe(0, 4, true)) + Copies(limit, Pipe(window, 4, true)) && i < |pipes|
    ensures Plausible(pipes) && NoneTorn(pipes) && Allowed(pipes, window, limit, i) && pipes[i].now in {0, window}
  {
    hide Allowed, CountIn, Logged;
    RedisAnswerMeans(pipes, window, limit, i);
    TwoBursts(pipes, window, limit, i);
  }

  lemma {:induction false} TwoBursts(pipes: seq<Pipe>, window: nat, limit: nat, i: nat)
    requires 0 < window && pipes == Copies(limit, Pipe(0, 4, true)) + Copies(limit, Pipe(window, 4, true)) && i <= |pipes|
    ensures CountIn(Logged(pipes[..i]), 1 - window, 0) == if i < limit then i else limit
    ensures CountIn(Logged(pipes[..i]), 1, window) == if i < limit then 0 else i - limit
  {
    if i == 0 {
      NoneLogged(window);
    } else {
      TwoBursts(pipes, window, limit, i - 1);
      hide CountIn;
      assert pipes[..i][..i - 1] == pipes[..i - 1];
      CountAppend(Logged(pipes[..i - 1]), pipes[i - 1].now, 1 - window, 0);
      CountAppend(Logged(pipes[..i - 1]), pipes[i - 1].now, 1, window);
    }
  }

  lemma NoneLogged(window: nat)
    ensures Logged([]) == [] && CountIn([], 1 - window, 0) == 0 && CountIn([], 1, window) == 0
  {
  }

  // ----- the two backends compared -----

  /** The requests of a run as whole, successful pipelines. */
  function AsPipes(times: seq<int>): seq<Pipe> {
    seq(|times|, i requires 0 <= i < |times| => Pipe(times[i], 4, true))
  }

  lemma {:induction false} LoggedAsPipes(times: seq<int>)
    ensures Logged(AsPipes(times)) == times
  {
    if times != [] {
      assert AsPipes(times)[..|times| - 1] == AsPipes(times[..|times| - 1]);
      LoggedAsPipes(times[..|times| - 1]);
    }
  }

  /** The fallback is at least as strict as Redis on the same history, and they differ by exactly the
      requests one whole window old, which only the fallback still counts. */
  lemma MemoryIsStricter(times: seq<int>, window: nat, limit: int, i: nat)
    requires NonDecreasing(times) && NonNegative(times) && i < |times|
    ensures var older := CountIn(times[..i], times[i] - window, times[i] - window);
            var younger := 1 + CountIn(times[..i], times[i] - window + 1, times[i]);
            && (Allowed(AsPipes(times), window, limit, i) <==> younger <= limit)
            && (Admitted(times, window, limit, i) <==> younger + older <= limit)
    ensures Admitted(times, window, limit, i) ==> Allowed(AsPipes(times), window, limit, i)
  {
    hide CountIn, Keep, LogAfter, After, Logged, Admitted, Allowed;
    var now, before := times[i], times[..i];
    assert AsPipes(times)[..i] == AsPipes(before);
    LoggedAsPipes(before);
    RedisAnswerMeans(AsPipes(times), window, limit, i);
    AdmittedMeans(times, window, limit, i);
    assert times[..i + 1] == before + [now];
    CountAppend(before, now, now - window, now);
    CountSplit(before, now - window, now - window + 1, now);
  }
}
