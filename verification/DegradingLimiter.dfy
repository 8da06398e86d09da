/** The limiter as an object (internal/ratelimit/limiter.go): its mutex-protected fields, the Redis server it
    talks to, the fallback, and the mutually recursive methods behind Allow, run by one caller at a time. */
module DegradingLimiter {
  import opened Arithmetic
  import opened LimiterCore
  import opened LimiterPaths
  import opened Options
  import opened SlidingWindow
  import Memory = MemoryLimiter
  import Redis = RedisWindow

  /** The wall clock: it never goes back, and nothing here runs past some horizon. */
  class Clock {
    var now: nat
    const horizon: nat

    ghost predicate Valid()
      reads this
    {
      now <= horizon
    }

    constructor (horizon: nat)
      ensures Valid() && now == 0 && this.horizon == horizon
    {
      this.horizon := horizon;
      now := 0;
    }

    method Read() returns (t: nat)
      requires Valid()
      modifies this
      ensures Valid() && old(now) <= now == t
    {
      t :| now <= t <= horizon;
      now := t;
    }
  }

  function KeyIn(keys: map<string, Redis.ZKey>, key: string): Redis.ZKey {
    if key in keys then keys[key] else Redis.ABSENT
  }

  /** A pipeline as the server has seen it. */
  datatype Sent = Sent(key: string, window: int, pipe: Redis.Pipe)

  /** The Redis server: a pipeline may fail after any number of its commands took effect. */
  class Server {
    var keys: map<string, Redis.ZKey>
    ghost var sent: seq<Sent>   // every pipeline so far, and how far it came
    ghost var pings: seq<bool>  // every reply to a ping

    constructor ()
      ensures keys == map[] && sent == [] && pings == []
    {
      keys := map[];
      sent, pings := [], [];
    }

    method Exec(key: string, now: int, window: int) returns (done: bool, count: nat, ghost n: nat)
      modifies this
      ensures n <= 4 && keys == old(keys)[key := Redis.Commands(KeyIn(old(keys), key), now, window, n)]
      ensures done ==> n == 4 && count == |keys[key].scores|
      ensures sent == old(sent) + [Sent(key, window, Redis.Pipe(now, n, done))] && pings == old(pings)
    {
      var applied: nat :| applied <= 4;
      n := applied;
      keys := keys[key := Redis.Commands(KeyIn(keys, key), now, window, applied)];
      done := *;
      done := done && applied == 4;
      count := |keys[key].scores|;
      sent := sent + [Sent(key, window, Redis.Pipe(now, n, done))];
    }

    method Ping() returns (up: bool)
      modifies this`pings
      ensures pings == old(pings) + [up]
    {
      up := *;
      pings := pings + [up];
    }
  }

  /** The server after pipelines for one key; every other key stays as it was. */
  function Ran(keys: map<string, Redis.ZKey>, key: string, window: int, pipes: seq<Redis.Pipe>): map<string, Redis.ZKey>
    decreases |pipes|
  {
    if pipes == [] then keys
    else Ran(keys[key := Redis.Commands(KeyIn(keys, key), pipes[0].now, window, pipes[0].applied)], key, window, pipes[1..])
  }

  /** The pipelines carried readings from the span of the call, in order, and only the last can have succeeded. */
  ghost predicate Within(pipes: seq<Redis.Pipe>, t0: int, t1: int) {
    && (forall i :: 0 <= i < |pipes| ==> t0 <= pipes[i].now <= t1 && pipes[i].applied <= 4
                                         && (pipes[i].ok ==> pipes[i].applied == 4 && i == |pipes| - 1))
    && (forall i, j :: 0 <= i < j < |pipes| ==> pipes[i].now <= pipes[j].now)
  }

  /** What a call did to the server: these pipelines, the last of which, if it succeeded, gave the answer by the number of
      requests it left under the key. */
  ghost predicate Piped(keys: map<string, Redis.ZKey>, key: string, limit: int, window: int, pipes: seq<Redis.Pipe>,
                        t0: int, t1: int, keys': map<string, Redis.ZKey>, a: Answer) {
    && keys' == Ran(keys, key, window, pipes) && Within(pipes, t0, t1)
    && (a.FromRedis? <==> pipes != [] && pipes[|pipes| - 1].ok)
    && (a.FromRedis? ==> a.ok == (|KeyIn(keys', key).scores| <= limit))
  }

  lemma PipedNext(keys: map<string, Redis.ZKey>, key: string, limit: int, window: int, p: Redis.Pipe, rest: seq<Redis.Pipe>,
                  t0: int, t: int, t1: int, keys': map<string, Redis.ZKey>, a: Answer)
    requires !p.ok && p.applied <= 4 && t0 <= p.now <= t <= t1
    requires Piped(keys[key := Redis.Commands(KeyIn(keys, key), p.now, window, p.applied)], key, limit, window, rest, t, t1, keys', a)
    ensures Piped(keys, key, limit, window, [p] + rest, t0, t1, keys', a)
  {
    hide Redis.Commands;
    assert ([p] + rest)[1..] == rest;
  }

  lemma PipedOnce(keys: map<string, Redis.ZKey>, key: string, limit: int, window: int, p: Redis.Pipe, t0: int, t1: int, count: nat)
    requires p.ok && p.applied == 4 && t0 <= p.now <= t1
    requires count == |Redis.Commands(KeyIn(keys, key), p.now, window, 4).scores|
    ensures Piped(keys, key, limit, window, [p], t0, t1,
                  keys[key := Redis.Commands(KeyIn(keys, key), p.now, window, 4)], FromRedis(count <= limit))
  {
    hide Redis.Commands;
    var keys' := keys[key := Redis.Commands(KeyIn(keys, key), p.now, window, 4)];
    assert [p][1..] == [] && Ran(keys', key, window, []) == keys';
  }

  lemma PipedNever(keys: map<string, Redis.ZKey>, key: string, limit: int, window: int, t0: int, t1: int, a: Answer)
    requires !a.FromRedis?
    ensures Piped(keys, key, limit, window, [], t0, t1, keys, a)
  {
  }

  lemma PipedSince(keys: map<string, Redis.ZKey>, key: string, limit: int, window: int, pipes: seq<Redis.Pipe>,
                   t0: int, t: int, t1: int, keys': map<string, Redis.ZKey>, a: Answer)
    requires Piped(keys, key, limit, window, pipes, t, t1, keys', a) && t0 <= t
    ensures Piped(keys, key, limit, window, pipes, t0, t1, keys', a)
  {
  }

  /** The pipelines that left what the server holds under the key, none of them cut off between its ZADD and its EXPIRE. */
  ghost predicate LeftWhole(run: seq<Redis.Pipe>, keys: map<string, Redis.ZKey>, key: string, window: nat, t: int) {
    && Redis.Plausible(run) && Redis.NoneTorn(run) && Redis.After(run, window) == KeyIn(keys, key)
    && (run != [] ==> run[|run| - 1].now <= t)
  }

  lemma LeftNext(run: seq<Redis.Pipe>, keys: map<string, Redis.ZKey>, key: string, window: nat, t: int, p: Redis.Pipe)
    requires LeftWhole(run, keys, key, window, t) && 0 <= t <= p.now && p.applied <= 4 && (p.ok ==> p.applied == 4)
    requires p.applied != 2 && p.applied != 3
    ensures LeftWhole(Redis.With(run, p), keys[key := Redis.Commands(KeyIn(keys, key), p.now, window, p.applied)], key, window, p.now)
  {
    hide Redis.Commands, Redis.Plausible, Redis.NoneTorn, Redis.After, Redis.With;
    Redis.PlausibleWith(run, p);
    Redis.AfterWith(run, p, window);
  }

  /** An answer from Redis, on a key that whole pipelines left: yes if and only if the request and the logged ones less
      than a window old number at most the limit. */
  lemma {:induction false} AnswerMeans(run: seq<Redis.Pipe>, keys: map<string, Redis.ZKey>, key: string, limit: int, window: nat,
                                       pipes: seq<Redis.Pipe>, t0: nat, t1: int, keys': map<string, Redis.ZKey>, a: Answer)
    requires Piped(keys, key, limit, window, pipes, t0, t1, keys', a) && a.FromRedis?
    requires LeftWhole(run, keys, key, window, t0) && Redis.NoneTorn(pipes)
    ensures pipes != [] && CountsWithin(run, pipes, limit, window, a.ok)
    decreases |pipes|
  {
    hide *;
    PipedLast(keys, key, limit, window, pipes, t0, t1, keys', a);
    TornTail(pipes);
    var p := pipes[0];
    if |pipes| == 1 {
      LeftIs(run, keys, key, window, t0);
      Redis.NextAllowed(run, p.now, window, limit);
      CountsLast(run, pipes, limit, window, a.ok);
    } else {
      LeftNext(run, keys, key, window, t0, p);
      var after := keys[key := Redis.Commands(KeyIn(keys, key), p.now, window, p.applied)];
      AnswerMeans(Redis.With(run, p), after, key, limit, window, pipes[1..], p.now, t1, keys', a);
      CountsRest(run, pipes, limit, window, a.ok);
    }
  }

  /** The answer is whether the last request and the logged ones less than a window old number at most the limit. */
  ghost predicate CountsWithin(run: seq<Redis.Pipe>, pipes: seq<Redis.Pipe>, limit: int, window: nat, ok: bool)
    requires pipes != []
  {
    var now := pipes[|pipes| - 1].now;
    ok <==> 1 + CountIn(Redis.Logged(run + pipes[..|pipes| - 1]), now - window + 1, now) <= limit
  }

  lemma CountsLast(run: seq<Redis.Pipe>, pipes: seq<Redis.Pipe>, limit: int, window: nat, ok: bool)
    requires |pipes| == 1
    requires ok <==> 1 + CountIn(Redis.Logged(run), pipes[0].now - window + 1, pipes[0].now) <= limit
    ensures CountsWithin(run, pipes, limit, window, ok)
  {
    assert run + pipes[..0] == run;
    hide CountIn, Redis.Logged;
  }

  lemma CountsRest(run: seq<Redis.Pipe>, pipes: seq<Redis.Pipe>, limit: int, window: nat, ok: bool)
    requires |pipes| > 1 && CountsWithin(Redis.With(run, pipes[0]), pipes[1..], limit, window, ok)
    ensures CountsWithin(run, pipes, limit, window, ok)
  {
    var rest := pipes[1..];
    assert Redis.With(run, pipes[0]) + rest[..|rest| - 1] == run + pipes[..|pipes| - 1];
    hide CountIn, Redis.Logged;
  }

  /** The first pipeline, and the rest. */
  lemma PipedLast(keys: map<string, Redis.ZKey>, key: string, limit: int, window: int, pipes: seq<Redis.Pipe>,
                  t0: int, t1: int, keys': map<string, Redis.ZKey>, a: Answer)
    requires Piped(keys, key, limit, window, pipes, t0, t1, keys', a) && a.FromRedis?
    ensures var p := pipes[0];
            var after := keys[key := Redis.Commands(KeyIn(keys, key), p.now, window, p.applied)];
            && pipes != [] && t0 <= p.now && p.applied <= 4
            && if |pipes| == 1
               then p.applied == 4 && (a.ok <==> |Redis.Commands(KeyIn(keys, key), p.now, window, 4).scores| <= limit)
               else !p.ok && Piped(after, key, limit, window, pipes[1..], p.now, t1, keys', a)
  {
    hide Redis.Commands;
  }

  lemma LeftIs(run: seq<Redis.Pipe>, keys: map<string, Redis.ZKey>, key: string, window: nat, t: int)
    requires LeftWhole(run, keys, key, window, t)
    ensures Redis.Plausible(run) && Redis.NoneTorn(run) && Redis.After(run, window) == KeyIn(keys, key)
    ensures run != [] ==> run[|run| - 1].now <= t
  {
  }

  lemma TornTail(pipes: seq<Redis.Pipe>)
    requires pipes != [] && Redis.NoneTorn(pipes)
    ensures pipes[0].applied != 2 && pipes[0].applied != 3 && Redis.NoneTorn(pipes[1..])
  {
  }

  /** What the server has seen of a call: its pings and pipelines are those of the trace, with the replies they got. */
  ghost predicate Heard(pings: seq<bool>, sent: seq<Sent>, key: string, window: int, es: seq<Event>, pipes: seq<Redis.Pipe>,
                        pings': seq<bool>, sent': seq<Sent>) {
    && pings' == pings + Pings(es)
    && sent' == sent + seq(|pipes|, i requires 0 <= i < |pipes| => Sent(key, window, pipes[i]))
    && |pipes| == |Outcomes(es)| && forall i :: 0 <= i < |pipes| ==> pipes[i].ok == Outcomes(es)[i]
  }

  lemma HeardNothing(pings: seq<bool>, sent: seq<Sent>, key: string, window: int, trace: seq<Event>)
    ensures Heard(pings, sent, key, window, trace[|trace|..], [], pings, sent)
  {
  }

  /** One step that is no pipeline, then the rest. */
  lemma HeardNext(pings: seq<bool>, sent: seq<Sent>, key: string, window: int, before: seq<Event>, e: Event, after: seq<Event>,
                  pipes: seq<Redis.Pipe>, pings1: seq<bool>, pings': seq<bool>, sent': seq<Sent>)
    requires before + [e] <= after && !e.Pipeline? && pings1 == pings + (if e.Ping? then [e.up] else [])
    requires Heard(pings1, sent, key, window, after[|before + [e]|..], pipes, pings', sent')
    ensures Heard(pings, sent, key, window, after[|before|..], pipes, pings', sent')
  {
    var es := after[|before|..];
    assert es[0] == e && es[1..] == after[|before + [e]|..];
  }

  lemma HeardPipe(pings: seq<bool>, sent: seq<Sent>, key: string, window: int, before: seq<Event>, e: Event, after: seq<Event>,
                  p: Redis.Pipe, pipes: seq<Redis.Pipe>, pings': seq<bool>, sent': seq<Sent>)
    requires before + [e] <= after && e.Pipeline? && e.done == p.ok
    requires Heard(pings, sent + [Sent(key, window, p)], key, window, after[|before + [e]|..], pipes, pings', sent')
    ensures Heard(pings, sent, key, window, after[|before|..], [p] + pipes, pings', sent')
  {
    var es := after[|before|..];
    assert es[0] == e && es[1..] == after[|before + [e]|..];
  }

  lemma HeardBoth(pings: seq<bool>, sent: seq<Sent>, key: string, window: int, before: seq<Event>, mid: seq<Event>, after: seq<Event>,
                  pings1: seq<bool>, pipes: seq<Redis.Pipe>, pings': seq<bool>, sent': seq<Sent>)
    requires before <= mid <= after && pings1 == pings + Pings(mid[|before|..]) && Outcomes(mid[|before|..]) == []
    requires Heard(pings1, sent, key, window, after[|mid|..], pipes, pings', sent')
    ensures Heard(pings, sent, key, window, after[|before|..], pipes, pings', sent')
  {
    var es, fs := mid[|before|..], after[|mid|..];
    assert after[|before|..] == es + fs;
    HeardJoin(es, fs);
  }

  /** The steps recorded since `before` are a path of the program from pc to pc', all clocks of probe gates read from t on. */
  ghost predicate Took(cfg: Config, c: Core, pc: Pc, before: seq<Event>, t: int, c': Core, pc': Pc, after: seq<Event>) {
    && before <= after
    && Path(cfg, c, pc, after[|before|..], c', pc')
    && StampedFrom(after[|before|..], t)
  }

  /** One step, then the rest. */
  lemma TookNext(cfg: Config, c: Core, pc: Pc, before: seq<Event>, t: int, e: Event, c1: Core, pc1: Pc, t1: int,
                 c': Core, pc': Pc, after: seq<Event>)
    requires Advance(cfg, c, pc, e) == Some((c1, pc1)) && t <= t1 && (e.LockGate? ==> t <= e.since && t <= e.stamp)
    requires Took(cfg, c1, pc1, before + [e], t1, c', pc', after)
    ensures Took(cfg, c, pc, before, t, c', pc', after)
    ensures Pipelines(after[|before|..]) == (if e.Pipeline? then 1 else 0) + Pipelines(after[|before| + 1..])
  {
    var es := after[|before|..];
    assert after[|before| + 1..] == es[1..] && es[0] == e;
    assert forall i :: 0 <= i < |es| && es[i].LockGate? ==> i > 0 ==> t1 <= es[1..][i - 1].since && t1 <= es[1..][i - 1].stamp;
  }

  lemma TookOnto(cfg: Config, c: Core, pc: Pc, before: seq<Event>, t: int, c': Core, pc': Pc, after: seq<Event>)
    requires Took(cfg, c, pc, before, t, c', pc', after)
    ensures before <= after
  {
  }

  lemma TookNothing(cfg: Config, c: Core, pc: Pc, before: seq<Event>, t: int)
    ensures Took(cfg, c, pc, before, t, c, pc, before) && Pipelines(before[|before|..]) == 0
  {
  }

  function Probe(since: int, stamp: int, up: bool): seq<Event> {
    [LockGate(since, stamp), Ping(up)] + if up then [LockRecover] else []
  }

  lemma ProbeClosed(cfg: Config, c: Core, before: seq<Event>, t: int, since: int)
    requires t <= since && !GateOpen(cfg, c, since)
    ensures var trace := before + [LockGate(since, since)];
            && Took(cfg, c, AtGate, before, t, c, AtFallback, trace)
            && Pings(trace[|before|..]) == [] && Outcomes(trace[|before|..]) == []
  {
    var trace := before + [LockGate(since, since)];
    assert trace[|before|..] == [LockGate(since, since)];
    ProbeHeard(LockGate(since, since), false);
    TookNothing(cfg, c, AtFallback, trace, since);
    TookNext(cfg, c, AtGate, before, t, LockGate(since, since), c, AtFallback, since, c, AtFallback, trace);
  }

  lemma ProbeMade(cfg: Config, c: Core, before: seq<Event>, t: int, since: int, stamp: int, up: bool)
    requires t <= since <= stamp && GateOpen(cfg, c, since)
    ensures var trace := before + Probe(since, stamp, up);
            && Took(cfg, c, AtGate, before, t, if up then Core(0, false, Some(stamp)) else c.(lastProbe := Some(stamp)),
                    if up then AtRedis else AtFallback, trace)
            && Pings(trace[|before|..]) == [up] && Outcomes(trace[|before|..]) == []
  {
    hide Took, Pings, Outcomes;
    var gate, probing := LockGate(since, stamp), c.(lastProbe := Some(stamp));
    var c', pc' := if up then Core(0, false, Some(stamp)) else probing, if up then AtRedis else AtFallback;
    var trace, atPing, pinged := before + Probe(since, stamp, up), before + [gate], before + [gate] + [Ping(up)];
    assert trace[|before|..] == Probe(since, stamp, up);
    ProbeHeard(gate, up);
    TookNothing(cfg, c', pc', trace, stamp);
    if up {
      assert trace == pinged + [LockRecover];
      TookNext(cfg, probing, AtRecover, pinged, stamp, LockRecover, c', AtRedis, stamp, c', AtRedis, trace);
    } else {
      assert trace == pinged;
    }
    TookNext(cfg, probing, AtPing, atPing, stamp, Ping(up), probing, if up then AtRecover else AtFallback, stamp, c', pc', trace);
    TookNext(cfg, c, AtGate, before, t, gate, probing, AtPing, stamp, c', pc', trace);
  }

  /** Without Redis the call ends in the fallback, or refused. */
  lemma FallbackTaken(cfg: Config, c: Core, before: seq<Event>, t: int, ok: bool, pings: seq<bool>, sent: seq<Sent>, key: string, window: int)
    ensures var trace := before + [Fallback(ok)];
            && Took(cfg, c, AtFallback, before, t, c, Answered(if cfg.deny then Refused else FromMemory(ok)), trace)
            && Heard(pings, sent, key, window, trace[|before|..], [], pings, sent)
  {
    var trace, a := before + [Fallback(ok)], if cfg.deny then Refused else FromMemory(ok);
    hide Took, Heard;
    TookNothing(cfg, c, Answered(a), trace, t);
    TookNext(cfg, c, AtFallback, before, t, Fallback(ok), c, Answered(a), t, c, Answered(a), trace);
    HeardNothing(pings, sent, key, window, trace);
    HeardNext(pings, sent, key, window, before, Fallback(ok), trace, [], pings, pings, sent);
  }

  /** How a call is answered and how it leaves the limiter, by the replies that the server gave. */
  lemma CallMeans(cfg: Config, c: Core, before: seq<Event>, t: int, c': Core, a: Answer, after: seq<Event>, pings: seq<bool>,
                  sent: seq<Sent>, key: string, window: int, pipes: seq<Redis.Pipe>, pings': seq<bool>, sent': seq<Sent>)
    requires Took(cfg, c, Entry, before, t, c', Answered(a), after)
    requires Heard(pings, sent, key, window, after[|before|..], pipes, pings', sent')
    ensures |pipes| == Pipelines(after[|before|..]) && |pings| <= |pings'|
    ensures c.degraded && true !in pings'[|pings|..] ==>
              pipes == [] && c'.degraded && if cfg.deny then a == Refused else a.FromMemory?
    ensures !c.degraded ==> pipes != []
    ensures !c.degraded && pipes[0].ok ==> a.FromRedis? && c' == c
    ensures !c.degraded && !pipes[0].ok && c.failures + 1 < cfg.threshold ==> a == FailOpen && c' == c.(failures := c.failures + 1)
    ensures !c.degraded && !pipes[0].ok && c.failures + 1 >= cfg.threshold && true !in pings'[|pings|..] ==>
              c'.degraded && c'.failures == 0 && if cfg.deny then a == Refused else a.FromMemory?
  {
    var es := after[|before|..];
    assert pings'[|pings|..] == Pings(es);
    OutcomesCount(es);
    CallEnds(cfg, c, es, c', a);
  }

  /** The answers of calls on a key that whole pipelines left. */
  lemma AnswersMean(keys: map<string, Redis.ZKey>, key: string, limit: int, window: nat, pipes: seq<Redis.Pipe>,
                    t0: nat, t1: int, keys': map<string, Redis.ZKey>, a: Answer)
    requires Piped(keys, key, limit, window, pipes, t0, t1, keys', a)
    ensures a.FromRedis? ==> pipes != [] && a.ok == (|KeyIn(keys', key).scores| <= limit)
    ensures a.FromRedis? && Redis.NoneTorn(pipes) ==>
              forall run :: LeftWhole(run, keys, key, window, t0) ==>
                CountsWithin(run, pipes, limit, window, a.ok)
  {
    if a.FromRedis? && Redis.NoneTorn(pipes) {
      forall run: seq<Redis.Pipe> | LeftWhole(run, keys, key, window, t0)
        ensures CountsWithin(run, pipes, limit, window, a.ok)
      {
        AnswerMeans(run, keys, key, limit, window, pipes, t0, t1, keys', a);
      }
    }
  }

  class Limiter {
    const cfg: Config
    const clock: Clock
    const redis: Server
    const fallback: Memory.Limiter<string>

    var consecutiveFailures: nat
    var degraded: bool
    var lastProbe: Option<int>

    ghost var trace: seq<Event>  // the atomic steps taken so far

    ghost function View(): Core
      reads this
    {
      Core(consecutiveFailures, degraded, lastProbe)
    }

    ghost predicate Valid()
      reads this, clock, fallback, fallback.Repr
    {
      && cfg.Valid() && clock.Valid() && fallback.Valid()
      && {this as object, clock, redis} !! fallback.Repr
      && (lastProbe.Some? ==> 0 <= lastProbe.value <= clock.now)
      && consecutiveFailures < cfg.threshold
    }

    /** How much later than the last probe another one could still start. */
    ghost function Budget(): nat
      reads this, clock, fallback, fallback.Repr
      requires Valid()
    {
      if lastProbe.None? then clock.horizon + 1 else clock.horizon - lastProbe.value
    }

    constructor (mode: string, threshold: int, interval: int, maxKeys: int, clock: Clock, redis: Server)
      requires clock.Valid()
      ensures Valid() && View() == FRESH && trace == [] && fallback.Contents == map[]
      ensures cfg == Configure(mode, threshold, interval) && this.clock == clock && this.redis == redis
    {
      this.clock, this.redis := clock, redis;
      fallback := new Memory.Limiter<string>(maxKeys, "");
      cfg := Configure(mode, threshold, interval);
      consecutiveFailures, degraded, lastProbe := 0, false, None;
      trace := [];
    }

    /** Whether the request under `key` may pass, and whether to treat it as a hard denial. The steps taken
        are those of the program, ending in the answer given; the fallback was asked or left alone; and
        redisAllow was entered at most twice, or, with a threshold of one, once more per interval. */
    method Allow(key: string, limit: int, window: nat) returns (ok: bool, err: bool, ghost a: Answer, ghost pipes: seq<Redis.Pipe>)
      requires Valid()
      modifies this, clock, redis, fallback, fallback.Repr
      ensures Valid() && old(clock.now) <= clock.now && fresh(fallback.Repr - old(fallback.Repr))
      ensures Took(cfg, old(View()), Entry, old(trace), old(clock.now), View(), Answered(a), trace)
      ensures a.FromRedis? ==> !err && ok == (|KeyIn(redis.keys, key).scores| <= limit)
      ensures a.FromMemory? ==> !err && ok == (|Memory.TimesOf(fallback.Contents, key)| <= limit)
      ensures a == FailOpen ==> !err && ok
      ensures a == Refused ==> err && !ok
      ensures if cfg.deny then !a.FromMemory? else a != Refused
      ensures FallbackAsked(old(fallback.Contents), key, limit, window / NANOS, old(clock.now) / NANOS, clock.now / NANOS, a)
      ensures Piped(old(redis.keys), key, limit, window / NANOS, pipes, old(clock.now) / NANOS, clock.now / NANOS, redis.keys, a)
      ensures Heard(old(redis.pings), old(redis.sent), key, window / NANOS, trace[|old(trace)|..], pipes, redis.pings, redis.sent)
      ensures cfg.threshold >= 2 ==> |pipes| <= 2
      ensures |pipes| <= 2 + (clock.now - old(clock.now)) / cfg.interval
      ensures old(degraded) && true !in redis.pings[|old(redis.pings)|..] ==>
                pipes == [] && degraded && if cfg.deny then a == Refused else a.FromMemory?
      ensures !old(degraded) ==> pipes != []
      ensures !old(degraded) && pipes[0].ok ==> a.FromRedis? && View() == old(View())
      ensures !old(degraded) && !pipes[0].ok && old(consecutiveFailures) + 1 < cfg.threshold ==>
                a == FailOpen && View() == Core(old(consecutiveFailures) + 1, false, old(lastProbe))
      ensures !old(degraded) && !pipes[0].ok && old(consecutiveFailures) + 1 >= cfg.threshold
              && true !in redis.pings[|old(redis.pings)|..] ==>
                degraded && consecutiveFailures == 0 && if cfg.deny then a == Refused else a.FromMemory?
      ensures a.FromRedis? && Redis.NoneTorn(pipes) ==>
                forall run :: LeftWhole(run, old(redis.keys), key, window / NANOS, old(clock.now) / NANOS) ==>
                  CountsWithin(run, pipes, limit, window / NANOS, ok)
    {
      hide Took, Memory.Allows, Pipelines, Piped, Heard, LeftWhole, CountsWithin;
      trace := trace + [ReadFlag];
      ghost var pc := if degraded then AtGate else AtRedis;
      if degraded {
        ok, err, a, pipes := DegradedAllow(key, limit, window);
      } else {
        ok, err, a, pipes := RedisAllow(key, limit, window);
      }
      TookNext(cfg, old(View()), Entry, old(trace), old(clock.now), ReadFlag, old(View()), pc, old(clock.now),
               View(), Answered(a), trace);
      TookOnto(cfg, old(View()), pc, old(trace) + [ReadFlag], old(clock.now), View(), Answered(a), trace);
      HeardNext(old(redis.pings), old(redis.sent), key, window / NANOS, old(trace), ReadFlag, trace, pipes,
                old(redis.pings), redis.pings, redis.sent);
      DepthBound(old(View()), old(trace), old(clock.now), a);
      CallMeans(cfg, old(View()), old(trace), old(clock.now), View(), a, trace, old(redis.pings), old(redis.sent),
                key, window / NANOS, pipes, redis.pings, redis.sent);
      AnswersMean(old(redis.keys), key, limit, window / NANOS, pipes, old(clock.now) / NANOS, clock.now / NANOS, redis.keys, a);
    }

    lemma DepthBound(c: Core, before: seq<Event>, t: int, a: Answer)
      requires Valid() && Took(cfg, c, Entry, before, t, View(), Answered(a), trace) && t <= clock.now
      ensures cfg.threshold >= 2 ==> Pipelines(trace[|before|..]) <= 2
      ensures Pipelines(trace[|before|..]) <= 2 + (clock.now - t) / cfg.interval
    {
      hide Memory.Limiter.Valid, Advance;
      var es := trace[|before|..];
      if cfg.threshold >= 2 { AtMostTwoPipelines(cfg, c, Entry, es, View(), Answered(a)); }
      ReentriesSpaced(cfg, c, Entry, es, View(), Answered(a), t);
      if Recoveries(es) > 0 {
        DivideBound(Recoveries(es) - 1, cfg.interval, clock.now - t);
      }
    }

    /** Only an answer of the fallback changes the fallback, and then by exactly one request, read during the call. */
    ghost predicate FallbackAsked(m: Memory.Keyspace<string>, key: string, limit: int, window: int, t0: int, t1: int, a: Answer)
      reads this, fallback
    {
      if a.FromMemory?
      then exists now :: t0 <= now <= t1 && Memory.Allows(m, fallback.empty, fallback.maxKeys, key, limit, window, now, fallback.Contents, a.ok)
      else fallback.Contents == m
    }

    method RedisAllow(key: string, limit: int, window: nat) returns (ok: bool, err: bool, ghost a: Answer, ghost pipes: seq<Redis.Pipe>)
      requires Valid()
      modifies this, clock, redis, fallback, fallback.Repr
      ensures Valid() && old(clock.now) <= clock.now && fresh(fallback.Repr - old(fallback.Repr))
      ensures Took(cfg, old(View()), AtRedis, old(trace), old(clock.now), View(), Answered(a), trace)
      ensures a.FromRedis? ==> !err && ok == (|KeyIn(redis.keys, key).scores| <= limit)
      ensures a.FromMemory? ==> !err && ok == (|Memory.TimesOf(fallback.Contents, key)| <= limit)
      ensures a == FailOpen ==> !err && ok
      ensures a == Refused ==> err && !ok
      ensures if cfg.deny then !a.FromMemory? else a != Refused
      ensures FallbackAsked(old(fallback.Contents), key, limit, window / NANOS, old(clock.now) / NANOS, clock.now / NANOS, a)
      ensures Piped(old(redis.keys), key, limit, window / NANOS, pipes, old(clock.now) / NANOS, clock.now / NANOS, redis.keys, a)
      ensures Heard(old(redis.pings), old(redis.sent), key, window / NANOS, trace[|old(trace)|..], pipes, redis.pings, redis.sent)
      decreases Budget(), 2
    {
      hide Took, Memory.Allows, Redis.Commands, Piped, Pipelines, Heard;
      ghost var before, t0 := redis.keys, clock.now / NANOS;
      var t := clock.Read();
      ghost var n;
      var done, count;
      done, count, n := redis.Exec(key, t / NANOS, window / NANOS);
      ghost var p := Redis.Pipe(t / NANOS, n, done);
      ghost var e, c := Pipeline(done, count <= limit), View();
      trace := trace + [e];
      if !done {
        ok, err, a, pipes := OnRedisError(key, limit, window);
        PipedNext(before, key, limit, window / NANOS, p, pipes, t0, t / NANOS, clock.now / NANOS, redis.keys, a);
      } else {
        ok, err, a, pipes := count <= limit, false, FromRedis(count <= limit), [];
        PipedOnce(before, key, limit, window / NANOS, p, t0, t / NANOS, count);
        TookNothing(cfg, c, Answered(a), trace, t);
        HeardNothing(redis.pings, redis.sent, key, window / NANOS, trace);
      }
      TookOnto(cfg, c, if done then Answered(FromRedis(count <= limit)) else AtFailure, old(trace) + [e], t, View(), Answered(a), trace);
      HeardPipe(old(redis.pings), old(redis.sent), key, window / NANOS, old(trace), e, trace, p, pipes, redis.pings, redis.sent);
      pipes := [p] + pipes;
      assert done ==> pipes == [p];
      AnswersMean(before, key, limit, window / NANOS, pipes, t0, clock.now / NANOS, redis.keys, a);
      TookNext(cfg, c, AtRedis, old(trace), old(clock.now), e, c, if done then Answered(FromRedis(count <= limit)) else AtFailure, t,
               View(), Answered(a), trace);
    }

    method OnRedisError(key: string, limit: int, window: nat) returns (ok: bool, err: bool, ghost a: Answer, ghost pipes: seq<Redis.Pipe>)
      requires Valid()
      modifies this, clock, redis, fallback, fallback.Repr
      ensures Valid() && old(clock.now) <= clock.now && fresh(fallback.Repr - old(fallback.Repr))
      ensures Took(cfg, old(View()), AtFailure, old(trace), old(clock.now), View(), Answered(a), trace)
      ensures a.FromRedis? ==> !err && ok == (|KeyIn(redis.keys, key).scores| <= limit)
      ensures a.FromMemory? ==> !err && ok == (|Memory.TimesOf(fallback.Contents, key)| <= limit)
      ensures a == FailOpen ==> !err && ok
      ensures a == Refused ==> err && !ok
      ensures if cfg.deny then !a.FromMemory? else a != Refused
      ensures FallbackAsked(old(fallback.Contents), key, limit, window / NANOS, old(clock.now) / NANOS, clock.now / NANOS, a)
      ensures Piped(old(redis.keys), key, limit, window / NANOS, pipes, old(clock.now) / NANOS, clock.now / NANOS, redis.keys, a)
      ensures Heard(old(redis.pings), old(redis.sent), key, window / NANOS, trace[|old(trace)|..], pipes, redis.pings, redis.sent)
      decreases Budget(), 1
    {
      hide Took, Memory.Allows, Piped, Pipelines, Heard;
      consecutiveFailures := consecutiveFailures + 1;
      var now := consecutiveFailures >= cfg.threshold;
      if now {
        degraded := true;
        consecutiveFailures := 0;
      }
      trace := trace + [LockFailure];
      ghost var c := View();
      if !now {
        ok, err, a, pipes := true, false, FailOpen, [];
        PipedNever(redis.keys, key, limit, window / NANOS, clock.now / NANOS, clock.now / NANOS, a);
        TookNothing(cfg, c, Answered(a), trace, clock.now);
        HeardNothing(redis.pings, redis.sent, key, window / NANOS, trace);
      } else {
        ok, err, a, pipes := DegradedAllow(key, limit, window);
      }
      TookOnto(cfg, c, if now then AtGate else Answered(FailOpen), old(trace) + [LockFailure], old(clock.now), View(), Answered(a), trace);
      HeardNext(old(redis.pings), old(redis.sent), key, window / NANOS, old(trace), LockFailure, trace, pipes,
                old(redis.pings), redis.pings, redis.sent);
      TookNext(cfg, old(View()), AtFailure, old(trace), old(clock.now), LockFailure, c,
               if now then AtGate else Answered(FailOpen), old(clock.now), View(), Answered(a), trace);
    }

    method DegradedAllow(key: string, limit: int, window: nat) returns (ok: bool, err: bool, ghost a: Answer, ghost pipes: seq<Redis.Pipe>)
      requires Valid()
      modifies this, clock, redis, fallback, fallback.Repr
      ensures Valid() && old(clock.now) <= clock.now && fresh(fallback.Repr - old(fallback.Repr))
      ensures Took(cfg, old(View()), AtGate, old(trace), old(clock.now), View(), Answered(a), trace)
      ensures a.FromRedis? ==> !err && ok == (|KeyIn(redis.keys, key).scores| <= limit)
      ensures a.FromMemory? ==> !err && ok == (|Memory.TimesOf(fallback.Contents, key)| <= limit)
      ensures a == FailOpen ==> !err && ok
      ensures a == Refused ==> err && !ok
      ensures if cfg.deny then !a.FromMemory? else a != Refused
      ensures FallbackAsked(old(fallback.Contents), key, limit, window / NANOS, old(clock.now) / NANOS, clock.now / NANOS, a)
      ensures Piped(old(redis.keys), key, limit, window / NANOS, pipes, old(clock.now) / NANOS, clock.now / NANOS, redis.keys, a)
      ensures Heard(old(redis.pings), old(redis.sent), key, window / NANOS, trace[|old(trace)|..], pipes, redis.pings, redis.sent)
      decreases Budget(), 0
    {
      hide Took, Memory.Allows, Memory.Limiter.Valid, Piped, Pipelines, Heard, Pings, Outcomes;
      ghost var t0 := clock.now / NANOS;
      var healthy := TryProbe();
      ghost var c, mid, t, keys, pings := View(), trace, clock.now, redis.keys, redis.pings;
      if healthy {
        ok, err, a, pipes := RedisAllow(key, limit, window);
        PipedSince(keys, key, limit, window / NANOS, pipes, t0, t / NANOS, clock.now / NANOS, redis.keys, a);
      } else {
        if cfg.deny {
          ok, err, a := false, true, Refused;
        } else {
          var now := clock.Read();
          ok := fallback.Allow(key, limit, window / NANOS, now / NANOS);
          err, a := false, FromMemory(ok);
        }
        pipes := [];
        PipedNever(redis.keys, key, limit, window / NANOS, t0, clock.now / NANOS, a);
        FallbackTaken(cfg, c, mid, t, ok, pings, redis.sent, key, window / NANOS);
        trace := trace + [Fallback(ok)];
      }
      TookBoth(cfg, old(View()), AtGate, old(trace), old(clock.now), c, if healthy then AtRedis else AtFallback, mid, t,
               View(), Answered(a), trace);
      HeardBoth(old(redis.pings), old(redis.sent), key, window / NANOS, old(trace), mid, trace, pings, pipes, redis.pings, redis.sent);
    }

    /** At most one ping per interval; a successful one makes the limiter healthy again. */
    method TryProbe() returns (healthy: bool)
      requires Valid()
      modifies this, clock, redis`pings
      ensures Valid() && old(clock.now) <= clock.now
      ensures Took(cfg, old(View()), AtGate, old(trace), old(clock.now),
                   View(), if healthy then AtRedis else AtFallback, trace)
      ensures healthy ==> Budget() < old(Budget())
      ensures redis.pings == old(redis.pings) + Pings(trace[|old(trace)|..]) && Outcomes(trace[|old(trace)|..]) == []
      ensures old(lastProbe).None? || old(clock.now) - old(lastProbe).value >= cfg.interval ==>
                |redis.pings| == |old(redis.pings)| + 1
      ensures old(lastProbe).Some? && clock.now - old(lastProbe).value < cfg.interval ==> redis.pings == old(redis.pings)
      ensures healthy <==> redis.pings == old(redis.pings) + [true]
      ensures if healthy then !degraded && consecutiveFailures == 0
              else degraded == old(degraded) && consecutiveFailures == old(consecutiveFailures)
    {
      hide Took, Memory.Allows, Memory.Limiter.Valid, Pings, Outcomes;
      ghost var c := View();
      var since := clock.Read();
      if lastProbe.Some? && since - lastProbe.value < cfg.interval {
        trace := trace + [LockGate(since, since)];
        ProbeClosed(cfg, c, old(trace), old(clock.now), since);
        assert |redis.pings| != |old(redis.pings) + [true]|;
        return false;
      }
      var stamp := clock.Read();
      lastProbe := Some(stamp);
      trace := trace + [LockGate(since, stamp)];
      healthy := redis.Ping();
      trace := trace + [Ping(healthy)];
      assert redis.pings[|old(redis.pings)|] == healthy;
      if healthy {
        degraded := false;
        consecutiveFailures := 0;
        trace := trace + [LockRecover];
      }
      ProbeMade(cfg, c, old(trace), old(clock.now), since, stamp, healthy);
      assert trace == old(trace) + Probe(since, stamp, healthy);
    }
  }

  lemma TookBoth(cfg: Config, c: Core, pc: Pc, before: seq<Event>, t: int, c1: Core, pc1: Pc, mid: seq<Event>, t1: int,
                 c2: Core, pc2: Pc, after: seq<Event>)
    requires Took(cfg, c, pc, before, t, c1, pc1, mid) && Took(cfg, c1, pc1, mid, t1, c2, pc2, after) && t <= t1
    ensures Took(cfg, c, pc, before, t, c2, pc2, after)
    ensures before <= mid <= after
  {
    var es, fs := mid[|before|..], after[|mid|..];
    PathJoins(cfg, c, pc, es, c1, pc1, fs, c2, pc2);
    assert after[|before|..] == es + fs;
  }
}
