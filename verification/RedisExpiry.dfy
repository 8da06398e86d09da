/** When exactly the deadline of a Redis key changes an answer (internal/ratelimit/limiter.go:133-141). */
module RedisExpiry {
  import opened SlidingWindow
  import opened RedisWindow

  /** The deadline has passed although an entry is still inside the window. */
  predicate FiresLive(k: ZKey, now: int, window: nat) {
    Live(k, now) != k && Outside(k.scores, now - window) != []
  }

  /** Whether the i-th pipeline finds that. */
  predicate Fires(pipes: seq<Pipe>, window: nat, i: nat)
    requires i < |pipes|
  {
    FiresLive(After(pipes[..i], window), pipes[i].now, window)
  }

  /** Sent and applied whole at that moment, a pipeline counts itself and the requests less than a window old. */
  predicate CountsRight(pipes: seq<Pipe>, window: nat, i: nat)
    requires i < |pipes|
  {
    |Commands(After(pipes[..i], window), pipes[i].now, window, 4).scores|
      == 1 + CountIn(Logged(pipes[..i]), pipes[i].now - window + 1, pipes[i].now)
  }

  lemma WholeLater(k: ZKey, logged: seq<int>, last: int, window: nat, now: int)
    requires Whole(k, logged, last, window) && last <= now && !FiresLive(k, now, window)
    ensures Whole(Live(k, now), logged, now, window)
  {
    if Live(k, now) != k {
      OutsideIsKeep(k.scores, now - window);
      forall cut | now - window < cut ensures Keep([], cut) == Keep(logged, cut) {
        KeepTwice(k.scores, now - window + 1, cut);
      }
    }
  }

  /** While the deadline fires on no live window, any prefix of the commands keeps the set whole. */
  lemma WholeCommands(k: ZKey, logged: seq<int>, last: int, window: nat, now: int, n: nat)
    requires Whole(k, logged, last, window) && last <= now && 0 <= now && n <= 4 && !FiresLive(k, now, window)
    ensures Whole(Commands(k, now, window, n), if n >= 2 then logged + [now] else logged, now, window)
    ensures n == 4 ==> Commands(k, now, window, n).scores == Keep(logged, now - window + 1) + [now]
  {
    WholeLater(k, logged, last, window, now);
    WholePruned(Live(k, now), logged, now, window);
    WholeAdded(ZRemRangeByScore(Live(k, now), now - window), logged, now, window);
    assert n == 0 ==> Whole(k, logged, now, window);
    hide Keep, Whole, Outside;
  }

  /** Without a firing among the first n pipelines the set is whole after them. */
  lemma {:induction false} RunWhole(pipes: seq<Pipe>, window: nat, n: nat)
    requires Plausible(pipes) && n < |pipes|
    requires forall j :: 0 <= j < n ==> !Fires(pipes, window, j)
    ensures Whole(After(pipes[..n], window), Logged(pipes[..n]), pipes[n].now, window)
    ensures AtMost(Logged(pipes[..n]), pipes[n].now)
  {
    hide Keep, Whole, Commands, FiresLive;
    if n == 0 {
      AbsentWhole(pipes[0].now, window);
    } else {
      RunWhole(pipes, window, n - 1);
      var k, logged, p := After(pipes[..n - 1], window), Logged(pipes[..n - 1]), pipes[n - 1];
      assert pipes[..n][..n - 1] == pipes[..n - 1];
      assert !Fires(pipes, window, n - 1);
      WholeCommands(k, logged, p.now, window, p.now, p.applied);
      WholeStays(After(pipes[..n], window), Logged(pipes[..n]), p.now, window, pipes[n].now);
    }
  }

  /** On a whole set a pipeline counts right exactly when the deadline does not fire on a live window. */
  lemma OneCount(k: ZKey, logged: seq<int>, now: int, window: nat)
    requires Whole(k, logged, now, window) && AtMost(logged, now) && 0 <= now
    ensures |Commands(k, now, window, 4).scores| == 1 + CountIn(logged, now - window + 1, now) <==> !FiresLive(k, now, window)
  {
    KeepLength(logged, now - window + 1, now);
    OutsideIsKeep(k.scores, now - window);
    if !FiresLive(k, now, window) {
      WholeCommands(k, logged, now, window, now, 4);
    } else {
      hide Keep, Outside, CountIn;
      assert Outside([], now - window) == [] by { EmptyOutside(now - window); }
    }
  }

  lemma EmptyOutside(max: int)
    ensures Outside([], max) == []
  {
  }

  /** As long as it has not fired, the next pipeline counts right exactly when it does not fire now. */
  lemma NextCount(pipes: seq<Pipe>, window: nat, i: nat)
    requires Plausible(pipes) && i < |pipes|
    requires forall j :: 0 <= j < i ==> !Fires(pipes, window, j)
    ensures CountsRight(pipes, window, i) <==> !Fires(pipes, window, i)
  {
    hide Whole, Commands, FiresLive, CountIn;
    RunWhole(pipes, window, i);
    OneCount(After(pipes[..i], window), Logged(pipes[..i]), pipes[i].now, window);
  }

  /** The deadline never shows in a history exactly when it never fires on a live window. */
  lemma {:induction false} ExpiryShowsExactly(pipes: seq<Pipe>, window: nat, n: nat)
    requires Plausible(pipes) && n <= |pipes|
    ensures (forall i :: 0 <= i < n ==> CountsRight(pipes, window, i)) <==> (forall i :: 0 <= i < n ==> !Fires(pipes, window, i))
  {
    hide *;
    if n > 0 {
      ExpiryShowsExactly(pipes, window, n - 1);
      if forall i :: 0 <= i < n - 1 ==> !Fires(pipes, window, i) {
        NextCount(pipes, window, n - 1);
      }
    }
  }

  lemma CompleteNeverFires(k: ZKey, logged: seq<int>, last: int, window: nat, now: int)
    requires Complete(k, logged, last, window) && last <= now
    ensures !FiresLive(k, now, window)
  {
    OutsideIsKeep(k.scores, now - window);
    assert Keep(k.scores, now - window + 1) == Keep(logged, now - window + 1);
    hide Keep, Outside;
    if Live(k, now) != k { KeepNothing(logged, now - window + 1); }
  }

  lemma AbsentNeverFires(now: int, window: nat)
    ensures !FiresLive(ABSENT, now, window)
  {
  }

  /** Which it never does without a pipeline cut off between its ZADD and its EXPIRE. */
  lemma WholePipelinesNeverFire(pipes: seq<Pipe>, window: nat, i: nat)
    requires Plausible(pipes) && NoneTorn(pipes) && i < |pipes|
    ensures !Fires(pipes, window, i)
  {
    var before, now := pipes[..i], pipes[i].now;
    hide Complete, Keep, Outside, Commands, FiresLive, Live;
    if i == 0 {
      AbsentNeverFires(now, window);
    } else {
      RunComplete(before, window);
      CompleteNeverFires(After(before, window), Logged(before), before[i - 1].now, window, now);
    }
  }
}
