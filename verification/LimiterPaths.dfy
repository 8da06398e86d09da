/** What one call's path through the limiter's program decides (internal/ratelimit/limiter.go:115-200): when it may
    recover, what a failed ping leaves behind, and how it is answered. */
module LimiterPaths {
  import opened LimiterCore
  import opened Options

  /** The replies to the path's pings, and whether its pipelines succeeded, in order. */
  function Pings(es: seq<Event>): seq<bool> {
    if es == [] then [] else (if es[0].Ping? then [es[0].up] else []) + Pings(es[1..])
  }

  function Outcomes(es: seq<Event>): seq<bool> {
    if es == [] then [] else (if es[0].Pipeline? then [es[0].done] else []) + Outcomes(es[1..])
  }

  lemma {:induction false} OutcomesCount(es: seq<Event>)
    ensures |Outcomes(es)| == Pipelines(es)
  {
    if es != [] { OutcomesCount(es[1..]); }
  }

  lemma OneEvent(es: seq<Event>)
    requires es != []
    ensures Pings(es) == (if es[0].Ping? then [es[0].up] else []) + Pings(es[1..])
    ensures Outcomes(es) == (if es[0].Pipeline? then [es[0].done] else []) + Outcomes(es[1..])
  {
  }

  lemma NothingHeard()
    ensures Pings([]) == [] && Outcomes([]) == []
  {
  }

  lemma {:induction false} HeardJoin(es: seq<Event>, fs: seq<Event>)
    ensures Pings(es + fs) == Pings(es) + Pings(fs) && Outcomes(es + fs) == Outcomes(es) + Outcomes(fs)
  {
    hide *;
    if es == [] {
      NothingHeard();
      assert es + fs == fs;
    } else {
      HeardJoin(es[1..], fs);
      assert (es + fs)[1..] == es[1..] + fs && (es + fs)[0] == es[0];
      OneEvent(es);
      OneEvent(es + fs);
    }
  }

  /** What a probe is heard as: a gate that stays closed, or a ping and, if it succeeds, a recovery. */
  lemma ProbeHeard(gate: Event, up: bool)
    requires gate.LockGate?
    ensures Pings([gate]) == [] && Outcomes([gate]) == []
    ensures var es := [gate, Ping(up)] + if up then [LockRecover] else []; Pings(es) == [up] && Outcomes(es) == []
  {
    NothingHeard();
    OneEvent([gate]);
    OneEvent([Ping(up)]);
    OneEvent([LockRecover]);
    hide *;
    HeardJoin([gate], [Ping(up)]);
    HeardJoin([gate] + [Ping(up)], [LockRecover]);
    assert [gate, Ping(up)] == [gate] + [Ping(up)] && [gate, Ping(up)] + [] == [gate] + [Ping(up)];
  }

  /** A path in two parts. */
  lemma {:induction false} PathSplits(cfg: Config, c: Core, pc: Pc, es: seq<Event>, c': Core, pc': Pc, i: nat) returns (c1: Core, pc1: Pc)
    requires Path(cfg, c, pc, es, c', pc') && i <= |es|
    ensures Path(cfg, c, pc, es[..i], c1, pc1) && Path(cfg, c1, pc1, es[i..], c', pc')
    decreases i
  {
    if i == 0 {
      assert es[0..] == es;
      c1, pc1 := c, pc;
    } else {
      var next := Advance(cfg, c, pc, es[0]).value;
      c1, pc1 := PathSplits(cfg, next.0, next.1, es[1..], c', pc', i - 1);
      assert es[1..][..i - 1] == es[..i][1..] && es[1..][i - 1..] == es[i..];
    }
  }

  /** A recovery follows a successful ping at once. */
  lemma RecoversAfterPing(cfg: Config, c: Core, pc: Pc, es: seq<Event>, c': Core, pc': Pc, i: nat)
    requires Path(cfg, c, pc, es, c', pc') && pc != AtRecover && i < |es| && es[i] == LockRecover
    ensures i > 0 && es[i - 1] == Ping(true)
  {
    var c1, pc1 := PathSplits(cfg, c, pc, es, c', pc', i);
    if i > 0 {
      var c2, pc2 := PathSplits(cfg, c, pc, es[..i], c1, pc1, i - 1);
      assert es[..i][i - 1..] == [es[i - 1]] && [es[i - 1]][1..] == [];
    }
  }

  /** After a failed ping the core stays as it is, no pipeline is sent, and deny mode refuses while memory mode asks the
      fallback. */
  lemma FailedPing(cfg: Config, c: Core, pc: Pc, es: seq<Event>, c': Core, pc': Pc, i: nat) returns (c1: Core)
    requires Path(cfg, c, pc, es, c', pc') && i < |es| && es[i] == Ping(false)
    ensures Path(cfg, c, pc, es[..i], c1, AtPing) && c' == c1
    ensures Pipelines(es[i..]) == 0
    ensures pc' == AtFallback || (pc'.Answered? && if cfg.deny then pc'.answer == Refused else pc'.answer.FromMemory?)
  {
    var pc1;
    c1, pc1 := PathSplits(cfg, c, pc, es, c', pc', i);
    var rest := es[i..][1..];
    FallbackEnds(cfg, c1, rest, c', pc');
    OutcomesCount(rest);
  }

  /** After a successful one the limiter recovers: it is healthy, has counted no failure, and the call goes to Redis. */
  lemma SuccessfulPing(cfg: Config, c: Core, pc: Pc, es: seq<Event>, c': Core, pc': Pc, i: nat) returns (c1: Core)
    requires Path(cfg, c, pc, es, c', pc') && i + 1 < |es| && es[i] == Ping(true)
    ensures Path(cfg, c, pc, es[..i], c1, AtPing) && es[i + 1] == LockRecover
    ensures Path(cfg, Core(0, false, c1.lastProbe), AtRedis, es[i + 2..], c', pc')
  {
    var pc1;
    c1, pc1 := PathSplits(cfg, c, pc, es, c', pc', i);
    assert es[i..][1..] == es[i + 1..] && es[i + 1..][1..] == es[i + 2..];
  }

  // ----- how a call is answered

  lemma AnsweredEnds(cfg: Config, c: Core, a: Answer, es: seq<Event>, c': Core, pc': Pc)
    requires Path(cfg, c, Answered(a), es, c', pc')
    ensures es == [] && c' == c && pc' == Answered(a)
  {
  }

  lemma FallbackEnds(cfg: Config, c: Core, es: seq<Event>, c': Core, pc': Pc)
    requires Path(cfg, c, AtFallback, es, c', pc')
    ensures c' == c && Pings(es) == [] && Outcomes(es) == []
    ensures pc' == AtFallback || (pc'.Answered? && if cfg.deny then pc'.answer == Refused else pc'.answer.FromMemory?)
  {
    if es != [] {
      AnsweredEnds(cfg, c, Advance(cfg, c, AtFallback, es[0]).value.1.answer, es[1..], c', pc');
    }
  }

  /** From the probe gate, unless a ping succeeds. */
  lemma GateEnds(cfg: Config, c: Core, es: seq<Event>, c': Core, a: Answer)
    requires Path(cfg, c, AtGate, es, c', Answered(a)) && true !in Pings(es)
    ensures c'.degraded == c.degraded && c'.failures == c.failures && Outcomes(es) == []
    ensures if cfg.deny then a == Refused else a.FromMemory?
  {
    var (c1, pc1) := Advance(cfg, c, AtGate, es[0]).value;
    if pc1 == AtPing {
      var es2 := es[1..][1..];
      assert es[1..][0] == Ping(false);
      FallbackEnds(cfg, c1, es2, c', Answered(a));
    } else {
      FallbackEnds(cfg, c1, es[1..], c', Answered(a));
    }
  }

  /** From a failed pipeline. */
  lemma FailureEnds(cfg: Config, c: Core, es: seq<Event>, c': Core, a: Answer)
    requires Path(cfg, c, AtFailure, es, c', Answered(a))
    ensures c.failures + 1 < cfg.threshold ==>
              a == FailOpen && c' == c.(failures := c.failures + 1) && Pings(es) == [] && Outcomes(es) == []
    ensures c.failures + 1 >= cfg.threshold && true !in Pings(es) ==>
              && c'.degraded && c'.failures == 0 && Outcomes(es) == []
              && if cfg.deny then a == Refused else a.FromMemory?
  {
    var (c1, pc1) := Advance(cfg, c, AtFailure, es[0]).value;
    if pc1 == AtGate {
      if true !in Pings(es) { GateEnds(cfg, c1, es[1..], c', a); }
    } else {
      AnsweredEnds(cfg, c1, FailOpen, es[1..], c', Answered(a));
    }
  }

  /** From redisAllow: the first pipeline's success or failure decides. */
  lemma RedisEnds(cfg: Config, c: Core, es: seq<Event>, c': Core, a: Answer)
    requires Path(cfg, c, AtRedis, es, c', Answered(a))
    ensures Outcomes(es) != []
    ensures Outcomes(es)[0] ==> a.FromRedis? && c' == c && Pings(es) == [] && |Outcomes(es)| == 1
    ensures !Outcomes(es)[0] && c.failures + 1 < cfg.threshold ==>
              a == FailOpen && c' == c.(failures := c.failures + 1) && Pings(es) == [] && |Outcomes(es)| == 1
    ensures !Outcomes(es)[0] && c.failures + 1 >= cfg.threshold && true !in Pings(es) ==>
              && c'.degraded && c'.failures == 0 && |Outcomes(es)| == 1
              && if cfg.deny then a == Refused else a.FromMemory?
  {
    var (c1, pc1) := Advance(cfg, c, AtRedis, es[0]).value;
    OneEvent(es);
    hide Pings, Outcomes;
    if pc1 == AtFailure {
      FailureEnds(cfg, c1, es[1..], c', a);
    } else {
      AnsweredEnds(cfg, c1, pc1.answer, es[1..], c', Answered(a));
      assert Pings([]) == [] && Outcomes([]) == [] by { NothingHeard(); }
    }
  }

  /** What a call is answered, and how it leaves the limiter. A degraded limiter asks Redis only after a ping has
      succeeded; a healthy one asks it first. */
  lemma CallEnds(cfg: Config, c: Core, es: seq<Event>, c': Core, a: Answer)
    requires Path(cfg, c, Entry, es, c', Answered(a))
    ensures c.degraded && true !in Pings(es) ==>
              && Outcomes(es) == [] && c'.degraded && c'.failures == c.failures
              && if cfg.deny then a == Refused else a.FromMemory?
    ensures !c.degraded ==> Outcomes(es) != []
    ensures !c.degraded && Outcomes(es)[0] ==> a.FromRedis? && c' == c && Pings(es) == [] && |Outcomes(es)| == 1
    ensures !c.degraded && !Outcomes(es)[0] && c.failures + 1 < cfg.threshold ==>
              a == FailOpen && c' == c.(failures := c.failures + 1) && Pings(es) == [] && |Outcomes(es)| == 1
    ensures !c.degraded && !Outcomes(es)[0] && c.failures + 1 >= cfg.threshold && true !in Pings(es) ==>
              && c'.degraded && c'.failures == 0 && |Outcomes(es)| == 1
              && if cfg.deny then a == Refused else a.FromMemory?
  {
    OneEvent(es);
    hide Pings, Outcomes;
    if c.degraded {
      if true !in Pings(es) { GateEnds(cfg, c, es[1..], c', a); }
    } else {
      RedisEnds(cfg, c, es[1..], c', a);
    }
  }
}
