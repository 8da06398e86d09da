/** The degrading limiter's program (internal/ratelimit/limiter.go): the state its mutex protects, the
    lock sections on that state, and the steps one call of Allow takes between them. */
module LimiterCore {
  import opened Options

  const NANOS := 1_000_000  // nanoseconds in a millisecond
  const DEFAULT_THRESHOLD := 3
  const DEFAULT_INTERVAL := 15_000_000_000  // nanoseconds

  datatype Config = Config(threshold: nat, interval: nat, deny: bool) {
    ghost predicate Valid() { 1 <= threshold && 1 <= interval }
  }

  /** What newLimiter makes of the options: anything but "deny" means the memory fallback. */
  function Configure(mode: string, threshold: int, interval: int): (cfg: Config)
    ensures cfg.Valid()
    ensures cfg.deny <==> mode == "deny"
    ensures threshold > 0 ==> cfg.threshold == threshold
    ensures threshold <= 0 ==> cfg.threshold == 3
    ensures interval > 0 ==> cfg.interval == interval
    ensures interval <= 0 ==> cfg.interval == 15_000 * NANOS
  {
    Config(if threshold <= 0 then DEFAULT_THRESHOLD else threshold,
           if interval <= 0 then DEFAULT_INTERVAL else interval,
           mode == "deny")
  }

  /** The fields behind the mutex. A limiter that never probed has the zero time as its last probe,
      which is further back than any interval. */
  datatype Core = Core(failures: nat, degraded: bool, lastProbe: Option<int>)

  const FRESH := Core(0, false, None)

  function CountFailure(cfg: Config, c: Core): Core {
    if c.failures + 1 >= cfg.threshold then Core(0, true, c.lastProbe)
    else c.(failures := c.failures + 1)
  }

  predicate GateOpen(cfg: Config, c: Core, t: int) {
    c.lastProbe.None? || t - c.lastProbe.value >= cfg.interval
  }

  function StartProbe(c: Core, t: int): Core {
    c.(lastProbe := Some(t))
  }

  function Recover(c: Core): Core {
    Core(0, false, c.lastProbe)
  }

  datatype Answer = FromRedis(ok: bool) | FailOpen | FromMemory(ok: bool) | Refused

  /** Where a call stands between two atomic steps. */
  datatype Pc = Entry | AtRedis | AtFailure | AtGate | AtPing | AtRecover | AtFallback | Answered(answer: Answer)

  datatype Event =
    | ReadFlag
    | Pipeline(done: bool, within: bool)  // done: Exec returned no error; within: the count was within the limit
    | LockFailure
    | LockGate(since: int, stamp: int)    // the two clock readings taken under the lock
    | Ping(up: bool)
    | LockRecover
    | Fallback(within: bool)

  /** One atomic step of one call; None when the event does not belong at that point. */
  function Advance(cfg: Config, c: Core, pc: Pc, e: Event): Option<(Core, Pc)> {
    match (pc, e)
    case (Entry, ReadFlag) => Some((c, if c.degraded then AtGate else AtRedis))
    case (AtRedis, Pipeline(done, within)) => Some((c, if done then Answered(FromRedis(within)) else AtFailure))
    case (AtFailure, LockFailure) =>
      Some((CountFailure(cfg, c), if c.failures + 1 >= cfg.threshold then AtGate else Answered(FailOpen)))
    case (AtGate, LockGate(since, stamp)) =>
      if since > stamp then None
      else if GateOpen(cfg, c, since) then Some((StartProbe(c, stamp), AtPing))
      else Some((c, AtFallback))
    case (AtPing, Ping(up)) => Some((c, if up then AtRecover else AtFallback))
    case (AtRecover, LockRecover) => Some((Recover(c), AtRedis))
    case (AtFallback, Fallback(within)) => Some((c, Answered(if cfg.deny then Refused else FromMemory(within))))
    case _ => None
  }

  /** A call running alone takes exactly these steps. */
  ghost predicate Path(cfg: Config, c: Core, pc: Pc, es: seq<Event>, c': Core, pc': Pc)
    decreases es
  {
    if es == [] then c' == c && pc' == pc
    else
      var next := Advance(cfg, c, pc, es[0]);
      next.Some? && Path(cfg, next.value.0, next.value.1, es[1..], c', pc')
  }

  lemma {:induction false} PathJoins(cfg: Config, c: Core, pc: Pc, es: seq<Event>, c1: Core, pc1: Pc,
                                     fs: seq<Event>, c2: Core, pc2: Pc)
    requires Path(cfg, c, pc, es, c1, pc1) && Path(cfg, c1, pc1, fs, c2, pc2)
    ensures Path(cfg, c, pc, es + fs, c2, pc2)
    decreases es
  {
    if es == [] {
      assert es + fs == fs;
    } else {
      var next := Advance(cfg, c, pc, es[0]).value;
      PathJoins(cfg, next.0, next.1, es[1..], c1, pc1, fs, c2, pc2);
      assert (es + fs)[1..] == es[1..] + fs;
    }
  }

  lemma PathStep(cfg: Config, c: Core, pc: Pc, es: seq<Event>, c1: Core, pc1: Pc, e: Event)
    requires Path(cfg, c, pc, es, c1, pc1) && Advance(cfg, c1, pc1, e).Some?
    ensures Path(cfg, c, pc, es + [e], Advance(cfg, c1, pc1, e).value.0, Advance(cfg, c1, pc1, e).value.1)
  {
    assert [e][1..] == [];
    PathJoins(cfg, c, pc, es, c1, pc1, [e], Advance(cfg, c1, pc1, e).value.0, Advance(cfg, c1, pc1, e).value.1);
  }

  /** How often a call enters redisAllow: once per pipeline it sends. */
  function Pipelines(es: seq<Event>): nat {
    if es == [] then 0 else (if es[0].Pipeline? then 1 else 0) + Pipelines(es[1..])
  }

  function Recoveries(es: seq<Event>): nat {
    if es == [] then 0 else (if es[0].LockRecover? then 1 else 0) + Recoveries(es[1..])
  }

  /** How many more pipelines a call can send from here when two failures are needed to degrade. */
  function PipelinesLeft(cfg: Config, c: Core, pc: Pc): nat {
    match pc
    case Entry => 2
    case AtRedis => if c.failures + 1 < cfg.threshold then 1 else 2
    case AtFailure => if c.failures + 1 < cfg.threshold then 0 else 1
    case AtGate => 1
    case AtPing => 1
    case AtRecover => 1
    case AtFallback => 0
    case Answered(_) => 0
  }

  /** The mutual recursion is shallow: with a threshold above one, a call running alone enters
      redisAllow at most twice, because recovering resets the failure count. */
  lemma {:induction false} AtMostTwoPipelines(cfg: Config, c: Core, pc: Pc, es: seq<Event>, c': Core, pc': Pc)
    requires 2 <= cfg.threshold && Path(cfg, c, pc, es, c', pc')
    ensures Pipelines(es) <= PipelinesLeft(cfg, c, pc) <= 2
    decreases es
  {
    if es != [] {
      var next := Advance(cfg, c, pc, es[0]).value;
      AtMostTwoPipelines(cfg, next.0, next.1, es[1..], c', pc');
    }
  }

  /** With a threshold of one only the probe interval bounds the recursion: for every n there is a call,
      n intervals long, that enters redisAllow n times and still is about to send another pipeline. */
  lemma {:induction false} ThresholdOneRecurs(cfg: Config, c: Core, n: nat, t: int) returns (es: seq<Event>, c': Core)
    requires cfg.Valid() && cfg.threshold == 1
    requires c.lastProbe.Some? ==> c.lastProbe.value + cfg.interval <= t
    ensures Path(cfg, c, AtRedis, es, c', AtRedis) && Pipelines(es) == n
    decreases n
  {
    if n == 0 {
      return [], c;
    }
    var round := [Pipeline(false, false), LockFailure, LockGate(t, t), Ping(true), LockRecover];
    var c1 := Core(0, false, Some(t));
    assert Path(cfg, c, AtRedis, round, c1, AtRedis) && Pipelines(round) == 1 by { OneRound(cfg, c, t); }
    var rest;
    rest, c' := ThresholdOneRecurs(cfg, c1, n - 1, t + cfg.interval);
    es := round + rest;
    PathJoins(cfg, c, AtRedis, round, c1, AtRedis, rest, c', AtRedis);
    PipelinesJoin(round, rest);
  }

  lemma OneRound(cfg: Config, c: Core, t: int)
    requires cfg.threshold == 1 && GateOpen(cfg, c, t)
    ensures var round := [Pipeline(false, false), LockFailure, LockGate(t, t), Ping(true), LockRecover];
            Path(cfg, c, AtRedis, round, Core(0, false, Some(t)), AtRedis) && Pipelines(round) == 1
  {
    var e1, e2, e3, e4, e5 := Pipeline(false, false), LockFailure, LockGate(t, t), Ping(true), LockRecover;
    var c1 := Core(0, true, c.lastProbe);
    var c2 := Core(0, true, Some(t));
    PathStep(cfg, c, AtRedis, [], c, AtRedis, e1);
    PathStep(cfg, c, AtRedis, [] + [e1], c, AtFailure, e2);
    PathStep(cfg, c, AtRedis, [] + [e1] + [e2], c1, AtGate, e3);
    PathStep(cfg, c, AtRedis, [] + [e1] + [e2] + [e3], c2, AtPing, e4);
    PathStep(cfg, c, AtRedis, [] + [e1] + [e2] + [e3] + [e4], c2, AtRecover, e5);
    assert [] + [e1] + [e2] + [e3] + [e4] + [e5] == [e1, e2, e3, e4, e5];
    assert Pipelines([e5]) == 0 by { assert [e5][1..] == []; }
    PipelinesJoin([e1], [e2]);
    PipelinesJoin([e1] + [e2], [e3]);
    PipelinesJoin([e1] + [e2] + [e3], [e4]);
    PipelinesJoin([e1] + [e2] + [e3] + [e4], [e5]);
    assert [e1] + [e2] + [e3] + [e4] + [e5] == [e1, e2, e3, e4, e5];
  }

  lemma {:induction false} PipelinesJoin(es: seq<Event>, fs: seq<Event>)
    ensures Pipelines(es + fs) == Pipelines(es) + Pipelines(fs)
  {
    if es == [] {
      assert es + fs == fs;
    } else {
      PipelinesJoin(es[1..], fs);
      assert (es + fs)[1..] == es[1..] + fs;
    }
  }

  /** Recoveries are paid for by probe spacing: each moves the last probe on by a whole interval. */
  lemma {:induction false} RecoveriesSpaced(cfg: Config, c: Core, pc: Pc, es: seq<Event>, c': Core, pc': Pc, p: int)
    requires Path(cfg, c, pc, es, c', pc') && c.lastProbe == Some(p)
    ensures c'.lastProbe.Some?
    ensures c'.lastProbe.value >= p + cfg.interval * (Recoveries(es) - (if pc == AtPing || pc == AtRecover then 1 else 0))
    decreases es
  {
    if es != [] {
      var next := Advance(cfg, c, pc, es[0]).value;
      RecoveriesSpaced(cfg, next.0, next.1, es[1..], c', pc', next.0.lastProbe.value);
    }
  }

  /** Both clock readings of every probe gate on the path were taken at t or later. */
  ghost predicate StampedFrom(es: seq<Event>, t: int) {
    forall i :: 0 <= i < |es| && es[i].LockGate? ==> t <= es[i].since && t <= es[i].stamp
  }

  /** A call re-enters redisAllow only after a recovery, and recoveries are a whole interval apart. */
  lemma {:induction false} ReentriesSpaced(cfg: Config, c: Core, pc: Pc, es: seq<Event>, c': Core, pc': Pc, t: int)
    requires Path(cfg, c, pc, es, c', pc') && StampedFrom(es, t) && pc != AtPing && pc != AtRecover
    ensures Pipelines(es) <= Recoveries(es) + (if pc == Entry || pc == AtRedis then 1 else 0)
    ensures Recoveries(es) > 0 ==>
              c'.lastProbe.Some? && c'.lastProbe.value >= t + cfg.interval * (Recoveries(es) - 1)
    decreases es
  {
    if es != [] {
      var (c1, pc1) := Advance(cfg, c, pc, es[0]).value;
      if pc1 == AtPing {
        RecoveriesSpaced(cfg, c1, pc1, es[1..], c', pc', c1.lastProbe.value);
        PipelinesAfterRecovery(cfg, c1, pc1, es[1..], c', pc');
      } else {
        ReentriesSpaced(cfg, c1, pc1, es[1..], c', pc', t);
      }
    }
  }

  lemma {:induction false} PipelinesAfterRecovery(cfg: Config, c: Core, pc: Pc, es: seq<Event>, c': Core, pc': Pc)
    requires Path(cfg, c, pc, es, c', pc')
    ensures Pipelines(es) <= Recoveries(es) + (if pc == Entry || pc == AtRedis then 1 else 0)
    decreases es
  {
    if es != [] {
      var (c1, pc1) := Advance(cfg, c, pc, es[0]).value;
      PipelinesAfterRecovery(cfg, c1, pc1, es[1..], c', pc');
    }
  }

  // ----- what the failure counter counts -----

  /** The core after calls made one after another while healthy; each sends one pipeline, which
      succeeds or fails as listed. Degrading ends the series. */
  function AfterCalls(cfg: Config, outcomes: seq<bool>): Core {
    if outcomes == [] then FRESH
    else
      var c := AfterCalls(cfg, outcomes[..|outcomes| - 1]);
      if c.degraded || outcomes[|outcomes| - 1] then c else CountFailure(cfg, c)
  }

  function Failures(outcomes: seq<bool>): nat {
    if outcomes == [] then 0
    else Failures(outcomes[..|outcomes| - 1]) + (if outcomes[|outcomes| - 1] then 0 else 1)
  }

  /** Each call of the series is a path of the program. */
  lemma CallsArePaths(cfg: Config, outcomes: seq<bool>, ok: bool, within: bool)
    requires !AfterCalls(cfg, outcomes).degraded
    ensures var es := if ok then [ReadFlag, Pipeline(true, within)] else [ReadFlag, Pipeline(false, within), LockFailure];
            var c, c' := AfterCalls(cfg, outcomes), AfterCalls(cfg, outcomes + [ok]);
            Path(cfg, c, Entry, es, c', if ok then Answered(FromRedis(within)) else if c'.degraded then AtGate else Answered(FailOpen))
  {
    var c := AfterCalls(cfg, outcomes);
    assert (outcomes + [ok])[..|outcomes|] == outcomes;
    PathStep(cfg, c, Entry, [], c, Entry, ReadFlag);
    PathStep(cfg, c, Entry, [] + [ReadFlag], c, AtRedis, Pipeline(ok, within));
    if ok {
      assert [] + [ReadFlag] + [Pipeline(ok, within)] == [ReadFlag, Pipeline(true, within)];
    } else {
      PathStep(cfg, c, Entry, [] + [ReadFlag] + [Pipeline(ok, within)], c, AtFailure, LockFailure);
      assert [] + [ReadFlag] + [Pipeline(ok, within)] + [LockFailure] == [ReadFlag, Pipeline(false, within), LockFailure];
    }
  }

  /** The counter counts failures since the last degradation or recovery, not consecutive ones: the
      limiter degrades exactly when `threshold` calls have failed, whatever succeeded in between. */
  lemma {:induction false} DegradesOnTotal(cfg: Config, outcomes: seq<bool>)
    requires cfg.Valid()
    ensures AfterCalls(cfg, outcomes).degraded <==> Failures(outcomes) >= cfg.threshold
    ensures !AfterCalls(cfg, outcomes).degraded ==> AfterCalls(cfg, outcomes).failures == Failures(outcomes)
  {
    if outcomes != [] { DegradesOnTotal(cfg, outcomes[..|outcomes| - 1]); }
  }

  /** Success, failure, success, failure, and so on. */
  function Alternating(n: nat): seq<bool> {
    seq(2 * n, i => i % 2 == 0)
  }

  lemma FailuresAppend(outcomes: seq<bool>, ok: bool)
    ensures Failures(outcomes + [ok]) == Failures(outcomes) + (if ok then 0 else 1)
  {
    assert (outcomes + [ok])[..|outcomes|] == outcomes;
  }

  lemma {:induction false} AlternatingFails(n: nat)
    ensures Failures(Alternating(n)) == n
  {
    if n > 0 {
      hide Failures;
      AlternatingFails(n - 1);
      var before := Alternating(n - 1);
      assert Alternating(n) == before + [true] + [false];
      FailuresAppend(before, true);
      FailuresAppend(before + [true], false);
    }
  }

  /** So the documented "consecutive failures" is not what is counted: for every threshold above one there is
      a series without two consecutive failures that degrades the limiter. */
  lemma NotConsecutive(cfg: Config)
    requires cfg.Valid() && 2 <= cfg.threshold
    ensures var outcomes := Alternating(cfg.threshold);
            && AfterCalls(cfg, outcomes).degraded
            && forall i :: 0 <= i < |outcomes| - 1 ==> outcomes[i] || outcomes[i + 1]
  {
    hide AfterCalls, Failures;
    AlternatingFails(cfg.threshold);
    DegradesOnTotal(cfg, Alternating(cfg.threshold));
  }
}
