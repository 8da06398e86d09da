/** The key of the interleaved system and the key of the pipeline histories are one: four commands executed at one
    instant do the same to both (internal/ratelimit/limiter.go:128-142). */
module RedisAgreement {
  import opened Options
  import opened SlidingWindow
  import opened LimiterCore
  import opened LimiterStore
  import opened LimiterSystem
  import RedisWindow
  import RedisExpiry

  ghost predicate Distinct(order: seq<nat>) {
    forall i, j :: 0 <= i < j < |order| ==> order[i] != order[j]
  }

  /** The members in order of addition have these scores. */
  ghost predicate Lists(scores: seq<int>, zset: map<nat, int>, order: seq<nat>) {
    && Distinct(order) && |scores| == |order|
    && (forall i :: 0 <= i < |order| ==> order[i] in zset && zset[order[i]] == scores[i])
    && (forall m :: m in zset ==> m in order)
  }

  /** The same key: its members' scores in order of addition, and its deadline. */
  ghost predicate Agrees(k: RedisWindow.ZKey, st: Store) {
    k.deadline == st.deadline && exists order :: Lists(k.scores, st.zset, order)
  }

  lemma StartsAgreeing()
    ensures Agrees(RedisWindow.ABSENT, EMPTY)
  {
    assert Lists([], map[], []);
  }

  // ----- command by command

  lemma LiveAgrees(k: RedisWindow.ZKey, st: Store, c: int, window: nat, flying: set<nat>)
    requires Agrees(k, st)
    ensures Agrees(RedisWindow.Live(k, c), Live(st, c, window, flying))
    ensures var d := Live(st, c, window, flying).deadline; d.Some? ==> c < d.value
  {
    assert Lists([], map[], []);
    hide Wiped;
  }

  /** A removal by score drops the same members from both. */
  lemma {:induction false} OutsideLists(scores: seq<int>, zset: map<nat, int>, order: seq<nat>, max: int) returns (left: seq<nat>)
    requires Lists(scores, zset, order)
    ensures Lists(RedisWindow.Outside(scores, max), Without(zset, max), left)
  {
    if scores == [] {
      left := [];
    } else {
      var n := |order| - 1;
      var m, score := order[n], scores[n];
      assert scores == scores[..n] + [score] && order == order[..n] + [m];
      ListsLess(scores[..n], zset, order[..n], m, score);
      WithoutOne(zset, m, max);
      var out := RedisWindow.Outside(scores, max);
      assert out == if 0 <= score <= max then RedisWindow.Outside(scores[..n], max)
                    else RedisWindow.Outside(scores[..n], max) + [score];
      hide *;
      left := OutsideLists(scores[..n], zset - {m}, order[..n], max);
      if !(0 <= score <= max) {
        ListsMore(RedisWindow.Outside(scores[..n], max), Without(zset - {m}, max), left, m, score);
        left := left + [m];
      }
    }
  }

  lemma ListsLess(scores: seq<int>, zset: map<nat, int>, order: seq<nat>, m: nat, score: int)
    requires Lists(scores + [score], zset, order + [m])
    ensures Lists(scores, zset - {m}, order) && m in zset && zset[m] == score
  {
    var all := order + [m];
    MembersGrow(order, m);
    assert forall x :: x in order ==> x in Members(order);
    forall i | 0 <= i < |order| ensures order[i] in zset - {m} && zset[order[i]] == scores[i] {
      assert all[i] in zset && zset[all[i]] == (scores + [score])[i] && order[i] in order;
    }
    assert all[|order|] == m && (scores + [score])[|order|] == score;
    forall x | x in zset - {m} ensures x in order {
      assert x in all;
    }
  }

  lemma WithoutOne(zset: map<nat, int>, m: nat, max: int)
    requires m in zset
    ensures Without(zset, max) == (if 0 <= zset[m] <= max then Without(zset - {m}, max) else Without(zset - {m}, max)[m := zset[m]])
    ensures m !in Without(zset - {m}, max)
  {
  }

  lemma PruneAgrees(k: RedisWindow.ZKey, st: Store, window: nat, now: int)
    requires Agrees(k, st)
    ensures Agrees(RedisWindow.ZRemRangeByScore(k, now - window), AfterPrune(st, window, now))
  {
    hide Lists, Without, RedisWindow.Outside;
    var order :| Lists(k.scores, st.zset, order);
    var left := OutsideLists(k.scores, st.zset, order, now - window);
    ListsEmpty(RedisWindow.Outside(k.scores, now - window), Without(st.zset, now - window), left);
    assert Lists(RedisWindow.ZRemRangeByScore(k, now - window).scores, AfterPrune(st, window, now).zset, left);
  }

  lemma ListsEmpty(scores: seq<int>, zset: map<nat, int>, order: seq<nat>)
    requires Lists(scores, zset, order)
    ensures scores == [] <==> zset == map[]
    ensures |scores| == |zset|
  {
    assert zset.Keys == Members(order);
    DistinctSize(order);
    assert |zset| == |zset.Keys|;
  }

  ghost function Members(order: seq<nat>): set<nat> { set m | m in order }

  lemma MembersGrow(order: seq<nat>, m: nat)
    requires Distinct(order + [m])
    ensures Members(order + [m]) == Members(order) + {m} && m !in Members(order) && Distinct(order)
  {
    var all := order + [m];
    forall i | 0 <= i < |order| ensures order[i] != m {
      assert all[i] != all[|order|];
    }
    forall i, j | 0 <= i < j < |order| ensures order[i] != order[j] {
      assert all[i] != all[j];
    }
  }

  lemma {:induction false} DistinctSize(order: seq<nat>)
    requires Distinct(order)
    ensures |Members(order)| == |order|
  {
    if order == [] {
      assert Members(order) == {};
    } else {
      hide *;
      var n := |order| - 1;
      assert order == order[..n] + [order[n]];
      MembersGrow(order[..n], order[n]);
      DistinctSize(order[..n]);
    }
  }

  lemma AddAgrees(k: RedisWindow.ZKey, st: Store, m: nat, now: int)
    requires Agrees(k, st) && m !in st.zset
    ensures Agrees(RedisWindow.ZAdd(k, now), AfterAdd(st, m, now))
  {
    var order :| Lists(k.scores, st.zset, order);
    ListsMore(k.scores, st.zset, order, m, now);
    hide Lists;
    assert Lists(RedisWindow.ZAdd(k, now).scores, AfterAdd(st, m, now).zset, order + [m]);
  }

  lemma ListsMore(scores: seq<int>, zset: map<nat, int>, order: seq<nat>, m: nat, score: int)
    requires Lists(scores, zset, order) && m !in zset
    ensures Lists(scores + [score], zset[m := score], order + [m])
  {
  }

  lemma RenewAgrees(k: RedisWindow.ZKey, st: Store, c: int, window: nat)
    requires Agrees(k, st)
    ensures Agrees(RedisWindow.Expire(k, c + window + RedisWindow.EXPIRE_SLACK), AfterRenew(st, c, window))
  {
    var order :| Lists(k.scores, st.zset, order);
    ListsEmpty(k.scores, st.zset, order);
    hide Lists;
  }

  lemma SameCount(k: RedisWindow.ZKey, st: Store)
    requires Agrees(k, st)
    ensures |k.scores| == |st.zset|
  {
    var order :| Lists(k.scores, st.zset, order);
    ListsEmpty(k.scores, st.zset, order);
  }

  // ----- a pipeline executed at one instant

  /** The first n commands of the call's pipeline, nothing in between. */
  function Executed(p: Params, s: System, id: nat, m: nat, n: nat): Option<System>
    requires n <= 4
  {
    if n == 0 then Some(s)
    else
      match Executed(p, s, id, m, n - 1)
      case None => None
      case Some(s1) => Act(p, s1, Of(id, if n == 1 then Prune else if n == 2 then Add(m) else if n == 3 then Card else Renew))
  }

  /** The call has read its clock now and sends its pipeline with a new member. */
  ghost predicate Ready(s: System, id: nat, m: nat) {
    && id in s.calls && s.calls[id] == Call(AtRedis, Read(Millis(s.clock)))
    && m !in s.store.scores && s.store.zset.Keys <= s.store.scores.Keys
  }

  /** What the histories' key holds after n commands. */
  function Key(p: Params, s: System, k: RedisWindow.ZKey, n: nat): RedisWindow.ZKey {
    RedisWindow.Commands(k, Millis(s.clock), p.window, n)
  }

  function StageAfter(now: int, m: nat, count: nat, n: nat): Stage {
    match n
    case 0 => Read(now)
    case 1 => Pruned(now)
    case 2 => Added(now, m)
    case 3 => Counted(now, m, count)
    case _ => Renewed(now, m, count)
  }

  /** How the call and the key stand after n commands. */
  ghost predicate Stands(p: Params, s: System, s': System, id: nat, m: nat, k: RedisWindow.ZKey, n: nat) {
    && s'.clock == s.clock && id in s'.calls
    && s'.calls[id] == Call(AtRedis, StageAfter(Millis(s.clock), m, |Key(p, s, k, 3).scores|, n))
    && Agrees(Key(p, s, k, n), s'.store) && s'.store.zset.Keys <= s'.store.scores.Keys
    && (n <= 1 ==> m !in s'.store.scores)
    && (n > 0 && s'.store.deadline.Some? ==> Millis(s.clock) < s'.store.deadline.value)
  }

  lemma NoneDue(p: Params, s: System)
    requires s.store.deadline.Some? ==> Millis(s.clock) < s.store.deadline.value
    ensures Seen(p, s) == s.store
  {
  }

  lemma CardKeeps(st: Store, limit: nat, m: nat, now: int)
    ensures var st' := AfterCard(st, limit, m, now);
            st'.zset == st.zset && st'.deadline == st.deadline && st'.scores == st.scores
  {
  }

  lemma SameSet(k: RedisWindow.ZKey, st: Store, st': Store)
    requires Agrees(k, st) && st'.zset == st.zset && st'.deadline == st.deadline
    ensures Agrees(k, st')
  {
  }

  lemma FirstCommand(p: Params, s: System, id: nat, m: nat, k: RedisWindow.ZKey)
    requires Stands(p, s, s, id, m, k, 0)
    ensures StepOf(p, s, id, Prune).Some? && Stands(p, s, StepOf(p, s, id, Prune).value, id, m, k, 1)
  {
    var c := Millis(s.clock);
    LiveAgrees(k, s.store, c, p.window, Flying(s.calls));
    PruneAgrees(RedisWindow.Live(k, c), Seen(p, s), p.window, c);
    assert Seen(p, s).zset.Keys <= Seen(p, s).scores.Keys && m !in Seen(p, s).scores;
    assert Without(Seen(p, s).zset, c - p.window).Keys <= Seen(p, s).zset.Keys;
    hide Agrees, Seen, Without;
  }

  lemma SecondCommand(p: Params, s: System, s1: System, id: nat, m: nat, k: RedisWindow.ZKey)
    requires Stands(p, s, s1, id, m, k, 1)
    ensures StepOf(p, s1, id, Add(m)).Some? && Stands(p, s, StepOf(p, s1, id, Add(m)).value, id, m, k, 2)
  {
    NoneDue(p, s1);
    AddAgrees(Key(p, s, k, 1), s1.store, m, Millis(s.clock));
    hide Agrees, Seen;
  }

  lemma ThirdCommand(p: Params, s: System, s2: System, id: nat, m: nat, k: RedisWindow.ZKey)
    requires Stands(p, s, s2, id, m, k, 2)
    ensures StepOf(p, s2, id, Card).Some? && Stands(p, s, StepOf(p, s2, id, Card).value, id, m, k, 3)
  {
    var c, key := Millis(s.clock), Key(p, s, k, 2);
    assert Key(p, s, k, 3) == key;
    NoneDue(p, s2);
    SameCount(key, s2.store);
    CardIs(p, s2, id, c, m);
    hide *;
    Counts(p, s, s2, id, m, k);
  }

  lemma Counts(p: Params, s: System, s2: System, id: nat, m: nat, k: RedisWindow.ZKey)
    requires Stands(p, s, s2, id, m, k, 2) && Key(p, s, k, 3) == Key(p, s, k, 2) && |Key(p, s, k, 2).scores| == |s2.store.zset|
    ensures var c := Millis(s.clock);
            Stands(p, s, Command(s2, id, Counted(c, m, |s2.store.zset|), AfterCard(s2.store, p.limit, m, c)), id, m, k, 3)
  {
    var c := Millis(s.clock);
    hide Key;
    CardKeeps(s2.store, p.limit, m, c);
    SameSet(Key(p, s, k, 2), s2.store, AfterCard(s2.store, p.limit, m, c));
    hide Agrees, AfterCard;
  }

  lemma CardIs(p: Params, s: System, id: nat, now: int, m: nat)
    requires id in s.calls && s.calls[id] == Call(AtRedis, Added(now, m)) && Seen(p, s) == s.store
    ensures StepOf(p, s, id, Card)
         == Some(Command(s, id, Counted(now, m, |s.store.zset|), AfterCard(s.store, p.limit, m, now)))
  {
    hide Seen, AfterCard;
  }

  lemma FourthCommand(p: Params, s: System, s3: System, id: nat, m: nat, k: RedisWindow.ZKey)
    requires Stands(p, s, s3, id, m, k, 3)
    ensures StepOf(p, s3, id, Renew).Some? && Stands(p, s, StepOf(p, s3, id, Renew).value, id, m, k, 4)
  {
    var c, key := Millis(s.clock), Key(p, s, k, 3);
    assert Key(p, s, k, 4) == RedisWindow.Expire(key, c + p.window + RedisWindow.EXPIRE_SLACK);
    NoneDue(p, s3);
    RenewIs(p, s3, id, c, m, |key.scores|);
    hide *;
    Renews(p, s, s3, id, m, k);
  }

  lemma Renews(p: Params, s: System, s3: System, id: nat, m: nat, k: RedisWindow.ZKey)
    requires Stands(p, s, s3, id, m, k, 3)
    requires Key(p, s, k, 4) == RedisWindow.Expire(Key(p, s, k, 3), Millis(s.clock) + p.window + RedisWindow.EXPIRE_SLACK)
    ensures var c := Millis(s.clock);
            Stands(p, s, Command(s3, id, Renewed(c, m, |Key(p, s, k, 3).scores|), AfterRenew(s3.store, c, p.window)), id, m, k, 4)
  {
    var c := Millis(s.clock);
    hide Key, AfterRenew, Agrees, RedisWindow.Expire;
    RenewAgrees(Key(p, s, k, 3), s3.store, c, p.window);
    RenewKeeps(s3.store, c, p.window);
  }

  lemma RenewKeeps(st: Store, c: int, window: nat)
    requires st.deadline.Some? ==> c < st.deadline.value
    ensures var st' := AfterRenew(st, c, window);
            st'.zset == st.zset && st'.scores == st.scores && (st'.deadline.Some? ==> c < st'.deadline.value)
  {
  }

  lemma RenewIs(p: Params, s: System, id: nat, now: int, m: nat, n: nat)
    requires id in s.calls && s.calls[id] == Call(AtRedis, Counted(now, m, n)) && Seen(p, s) == s.store
    ensures StepOf(p, s, id, Renew) == Some(Command(s, id, Renewed(now, m, n), AfterRenew(s.store, Millis(s.clock), p.window)))
  {
    hide Seen, AfterRenew;
  }

  /** Any prefix of a pipeline's commands, at one instant, does to the key in the interleaved system what it does to the
      key of the histories, and the call has the count that ZCARD reads there. */
  lemma {:induction false} PipelineAgrees(p: Params, s: System, id: nat, m: nat, k: RedisWindow.ZKey, n: nat)
    requires Ready(s, id, m) && Agrees(k, s.store) && n <= 4
    ensures Executed(p, s, id, m, n).Some? && Stands(p, s, Executed(p, s, id, m, n).value, id, m, k, n)
  {
    hide Stands, StepOf;
    if n == 0 {
      assert Stands(p, s, s, id, m, k, 0) by { StandsAtFirst(p, s, id, m, k); }
    } else {
      PipelineAgrees(p, s, id, m, k, n - 1);
      var s1 := Executed(p, s, id, m, n - 1).value;
      StandsIn(p, s, s1, id, m, k, n - 1);
      if n == 1 {
        FirstCommand(p, s, id, m, k);
      } else if n == 2 {
        SecondCommand(p, s, s1, id, m, k);
      } else if n == 3 {
        ThirdCommand(p, s, s1, id, m, k);
      } else {
        FourthCommand(p, s, s1, id, m, k);
      }
    }
  }

  lemma StandsAtFirst(p: Params, s: System, id: nat, m: nat, k: RedisWindow.ZKey)
    requires Ready(s, id, m) && Agrees(k, s.store)
    ensures Stands(p, s, s, id, m, k, 0)
  {
  }

  lemma StandsIn(p: Params, s: System, s1: System, id: nat, m: nat, k: RedisWindow.ZKey, n: nat)
    requires Stands(p, s, s1, id, m, k, n)
    ensures id in s1.calls
  {
  }

  /** A whole pipeline of another caller, worked off at the instant of its reading, does the same. */
  lemma StrayAgrees(p: Params, s: System, m: nat, k: RedisWindow.ZKey)
    requires Agrees(k, s.store) && m !in s.store.scores && s.store.zset.Keys <= s.store.scores.Keys
    ensures var c := Millis(s.clock);
            && Act(p, s, StrayPipeline(m, c)).Some?
            && Agrees(RedisWindow.Commands(k, c, p.window, 4), Act(p, s, StrayPipeline(m, c)).value.store)
  {
    assert m !in Seen(p, s).zset;
    LiveAgrees(k, s.store, Millis(s.clock), p.window, Flying(s.calls));
    hide Agrees, Live, AfterPrune, AfterAdd, AfterRenew, RedisWindow.ZRemRangeByScore, RedisWindow.Live;
    AllAgree(RedisWindow.Live(k, Millis(s.clock)), Seen(p, s), m, Millis(s.clock), p.window);
  }

  lemma AllAgree(k: RedisWindow.ZKey, st: Store, m: nat, c: int, window: nat)
    requires Agrees(k, st) && m !in st.zset
    ensures Agrees(RedisWindow.Expire(RedisWindow.ZAdd(RedisWindow.ZRemRangeByScore(k, c - window), c),
                                      c + window + RedisWindow.EXPIRE_SLACK),
                   AfterRenew(AfterAdd(AfterPrune(st, window, c), m, c), c, window))
  {
    assert m !in AfterPrune(st, window, c).zset;
    hide *;
    PruneAgrees(k, st, window, c);
    AddAgrees(RedisWindow.ZRemRangeByScore(k, c - window), AfterPrune(st, window, c), m, c);
    RenewAgrees(RedisWindow.ZAdd(RedisWindow.ZRemRangeByScore(k, c - window), c),
                AfterAdd(AfterPrune(st, window, c), m, c), c, window);
  }

  // ----- so what is true of histories is true of the system

  /** The histories' key is the one that the pipelines so far have left, and the clock has not gone back. */
  ghost predicate HasRun(p: Params, s: System, pipes: seq<RedisWindow.Pipe>) {
    && RedisWindow.Plausible(pipes) && Agrees(RedisWindow.After(pipes, p.window), s.store)
    && (pipes != [] ==> pipes[|pipes| - 1].now <= Millis(s.clock))
  }

  function Next(s: System, n: nat, ok: bool): RedisWindow.Pipe { RedisWindow.Pipe(Millis(s.clock), n, ok) }

  /** A call that executes n commands of its pipeline at one instant adds that pipeline to the history. */
  lemma HistoryGoesOn(p: Params, s: System, id: nat, m: nat, pipes: seq<RedisWindow.Pipe>, n: nat, ok: bool)
    requires Ready(s, id, m) && HasRun(p, s, pipes) && n <= 4 && (ok ==> n == 4)
    ensures Executed(p, s, id, m, n).Some?
    ensures HasRun(p, Executed(p, s, id, m, n).value, RedisWindow.With(pipes, Next(s, n, ok)))
  {
    var k := RedisWindow.After(pipes, p.window);
    PipelineAgrees(p, s, id, m, k, n);
    RedisWindow.AfterWith(pipes, Next(s, n, ok), p.window);
    RedisWindow.PlausibleWith(pipes, Next(s, n, ok));
    hide RedisWindow.Plausible, RedisWindow.After, RedisWindow.Commands, Agrees, Executed;
  }

  /** What a call in the interleaved system is answered, when its pipeline executes at one instant on a key that whole
      pipelines left: it is admitted exactly when it and the requests less than a window old are within the limit. */
  lemma AnswerMeans(p: Params, s: System, id: nat, m: nat, pipes: seq<RedisWindow.Pipe>)
    requires Ready(s, id, m) && HasRun(p, s, pipes) && RedisWindow.NoneTorn(pipes)
    ensures var c, done := Millis(s.clock), Executed(p, s, id, m, 4);
            && done.Some? && id in done.value.calls && StepOf(p, done.value, id, Reply).Some?
            && (StepOf(p, done.value, id, Reply).value.calls[id].pc == Answered(FromRedis(true))
                <==> 1 + CountIn(RedisWindow.Logged(pipes), c - p.window + 1, c) <= p.limit)
  {
    hide *;
    RunPlausible(p, s, pipes);
    PipelineAgrees(p, s, id, m, RedisWindow.After(pipes, p.window), 4);
    Answers(p, s, Executed(p, s, id, m, 4).value, id, m, RedisWindow.After(pipes, p.window));
    RedisWindow.NextAllowed(pipes, Millis(s.clock), p.window, p.limit);
  }

  lemma RunPlausible(p: Params, s: System, pipes: seq<RedisWindow.Pipe>)
    requires HasRun(p, s, pipes)
    ensures RedisWindow.Plausible(pipes) && (pipes != [] ==> pipes[|pipes| - 1].now <= Millis(s.clock))
    ensures Agrees(RedisWindow.After(pipes, p.window), s.store)
  {
  }

  lemma Answers(p: Params, s: System, s4: System, id: nat, m: nat, k: RedisWindow.ZKey)
    requires Stands(p, s, s4, id, m, k, 4)
    ensures id in s4.calls && StepOf(p, s4, id, Reply).Some?
    ensures StepOf(p, s4, id, Reply).value.calls[id].pc == Answered(FromRedis(true))
            <==> |RedisWindow.Commands(k, Millis(s.clock), p.window, 4).scores| <= p.limit
  {
  }

  lemma FiresWith(pipes: seq<RedisWindow.Pipe>, pipe: RedisWindow.Pipe, window: nat, j: nat)
    requires j < |pipes|
    ensures RedisExpiry.Fires(RedisWindow.With(pipes, pipe), window, j) <==> RedisExpiry.Fires(pipes, window, j)
  {
    assert RedisWindow.With(pipes, pipe)[..j] == pipes[..j];
    hide RedisExpiry.FiresLive, RedisWindow.After;
  }

  lemma NextCounts(pipes: seq<RedisWindow.Pipe>, now: nat, window: nat)
    requires RedisWindow.Plausible(pipes) && (pipes != [] ==> pipes[|pipes| - 1].now <= now)
    requires forall j :: 0 <= j < |pipes| ==> !RedisExpiry.Fires(pipes, window, j)
    ensures |RedisWindow.Commands(RedisWindow.After(pipes, window), now, window, 4).scores|
            == 1 + CountIn(RedisWindow.Logged(pipes), now - window + 1, now)
            <==> !RedisExpiry.FiresLive(RedisWindow.After(pipes, window), now, window)
  {
    hide *;
    var pipe := RedisWindow.Pipe(now, 4, true);
    RedisWindow.PlausibleWith(pipes, pipe);
    RedisWindow.AfterWith(pipes, pipe, window);
    forall j | 0 <= j < |pipes| ensures !RedisExpiry.Fires(RedisWindow.With(pipes, pipe), window, j) {
      FiresWith(pipes, pipe, window, j);
    }
    RedisExpiry.NextCount(RedisWindow.With(pipes, pipe), window, |pipes|);
    NextIs(RedisWindow.With(pipes, pipe), window, |pipes|);
  }

  lemma NextIs(run: seq<RedisWindow.Pipe>, window: nat, i: nat)
    requires i < |run|
    ensures RedisExpiry.Fires(run, window, i)
            <==> RedisExpiry.FiresLive(RedisWindow.After(run[..i], window), run[i].now, window)
    ensures RedisExpiry.CountsRight(run, window, i)
            <==> |RedisWindow.Commands(RedisWindow.After(run[..i], window), run[i].now, window, 4).scores|
                 == 1 + CountIn(RedisWindow.Logged(run[..i]), run[i].now - window + 1, run[i].now)
  {
    hide RedisExpiry.FiresLive, RedisWindow.After, RedisWindow.Commands, RedisWindow.Logged, CountIn;
  }

  /** After cut-off pipelines too: until a deadline first fires on a live window, a call's count is right exactly when
      none does now. */
  lemma CountMeans(p: Params, s: System, id: nat, m: nat, pipes: seq<RedisWindow.Pipe>)
    requires Ready(s, id, m) && HasRun(p, s, pipes)
    requires forall j :: 0 <= j < |pipes| ==> !RedisExpiry.Fires(pipes, p.window, j)
    ensures var c, done := Millis(s.clock), Executed(p, s, id, m, 4);
            && done.Some? && id in done.value.calls && done.value.calls[id].stage.Renewed?
            && (done.value.calls[id].stage.n == 1 + CountIn(RedisWindow.Logged(pipes), c - p.window + 1, c)
                <==> !RedisExpiry.FiresLive(RedisWindow.After(pipes, p.window), c, p.window))
  {
    hide *;
    RunPlausible(p, s, pipes);
    var k := RedisWindow.After(pipes, p.window);
    PipelineAgrees(p, s, id, m, k, 4);
    HasCount(p, s, Executed(p, s, id, m, 4).value, id, m, k);
    NextCounts(pipes, Millis(s.clock), p.window);
  }

  lemma HasCount(p: Params, s: System, s4: System, id: nat, m: nat, k: RedisWindow.ZKey)
    requires Stands(p, s, s4, id, m, k, 4)
    ensures id in s4.calls && s4.calls[id].stage.Renewed?
    ensures s4.calls[id].stage.n == |RedisWindow.Commands(k, Millis(s.clock), p.window, 4).scores|
  {
  }
}
