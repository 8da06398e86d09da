/** The throttle of the whole limiter: what it can admit for one key within one window, through any
    failures, degradations, probes and recoveries, with any number of calls interleaved. */
module LimiterThrottle {
  import opened Arithmetic
  import opened SlidingWindow
  import opened LimiterCore
  import opened LimiterStore
  import opened LimiterSystem
  import opened LimiterRedis
  import opened LimiterStraddle

  /** Calls that have been let through to Redis and can still count a failure. */
  predicate IsArmed(c: Call) { c.pc == AtRedis || c.pc == AtFailure }

  /** Calls whose probe has started and can still recover the limiter. */
  predicate IsProbing(c: Call) { c.pc == AtPing || c.pc == AtRecover }

  ghost function Armed(calls: map<nat, Call>): set<nat> { set id | id in calls && IsArmed(calls[id]) }

  ghost function Probing(calls: map<nat, Call>): set<nat> { set id | id in calls && IsProbing(calls[id]) }

  function One(b: bool): nat { if b then 1 else 0 }

  lemma ArmedUpdate(calls: map<nat, Call>, id: nat, c: Call)
    ensures |Armed(calls[id := c])| == |Armed(calls)| - One(id in calls && IsArmed(calls[id])) + One(IsArmed(c))
  {
    assert Armed(calls[id := c]) == Armed(calls) - {id} + (if IsArmed(c) then {id} else {});
  }

  lemma ProbingUpdate(calls: map<nat, Call>, id: nat, c: Call)
    ensures |Probing(calls[id := c])| == |Probing(calls)| - One(id in calls && IsProbing(calls[id])) + One(IsProbing(c))
  {
    assert Probing(calls[id := c]) == Probing(calls) - {id} + (if IsProbing(c) then {id} else {});
  }

  lemma Removed(calls: map<nat, Call>, id: nat)
    requires id in calls && calls[id].pc.Answered?
    ensures Armed(calls - {id}) == Armed(calls) && Probing(calls - {id}) == Probing(calls)
  {
  }

  lemma ArmedAtMost(calls: map<nat, Call>)
    ensures |Armed(calls)| <= |calls|
  {
    SubsetSize(Armed(calls), calls.Keys);
  }

  /** How many fail-open answers are possible before the next recovery, with k calls in flight. */
  ghost function Potential(p: Params, k: nat, s: System): int {
    if s.core.degraded then |Armed(s.calls)| else (p.cfg.threshold - 1 - s.core.failures) + (k - 1)
  }

  /** Fail-open answers given and still possible, less what the recoveries so far have paid for. */
  ghost function Owed(p: Params, k: nat, s: System): int {
    |s.failOpens| + Potential(p, k, s) - s.recoveries * (p.cfg.threshold + k - 2)
  }

  /** Recoveries made and still possible, less the probes that have started. */
  ghost function Overdrawn(s: System): int {
    s.recoveries + |Probing(s.calls)| - |s.probes|
  }

  ghost predicate Paid(p: Params, k: nat, s: System, s': System) {
    Owed(p, k, s') <= Owed(p, k, s) && Overdrawn(s') <= Overdrawn(s)
  }

  lemma PaidMove(p: Params, k: nat, s: System, id: nat, e: Event)
    requires p.cfg.Valid() && s.core.failures < p.cfg.threshold && |s.calls| <= k
    requires id in s.calls && Move(p, s, id, e).Some?
    ensures Paid(p, k, s, Move(p, s, id, e).value)
  {
    var c := Call(Advance(p.cfg, s.core, s.calls[id].pc, e).value.1, Fresh);
    ArmedUpdate(s.calls, id, c);
    ProbingUpdate(s.calls, id, c);
    ArmedAtMost(s.calls);
    var r, m := s.recoveries, p.cfg.threshold + k - 2;
    assert (r + 1) * m == r * m + m;
  }

  /** Actions that neither move a call in its program nor touch the core are free. */
  lemma PaidQuiet(p: Params, k: nat, s: System, s': System)
    requires s'.core == s.core && s'.failOpens == s.failOpens && s'.probes == s.probes && s'.recoveries == s.recoveries
    requires Armed(s'.calls) == Armed(s.calls) && Probing(s'.calls) == Probing(s.calls)
    ensures Paid(p, k, s, s')
  {
  }

  lemma StageQuiet(s: System, id: nat, stage: Stage)
    requires id in s.calls
    ensures var s' := SetStage(s, id, stage);
            Armed(s'.calls) == Armed(s.calls) && Probing(s'.calls) == Probing(s.calls)
  {
  }

  lemma PaidStepOf(p: Params, k: nat, s: System, id: nat, step: Step)
    requires p.cfg.Valid() && s.core.failures < p.cfg.threshold && |s.calls| <= k
    requires id in s.calls && StepOf(p, s, id, step).Some?
    ensures Paid(p, k, s, StepOf(p, s, id, step).value)
  {
    hide Move, Keep, Advance, Armed, Probing, Paid, Seen;
    var Call(pc, stage) := s.calls[id];
    var s' := StepOf(p, s, id, step).value;
    match step
    case Finish => Removed(s.calls, id); PaidQuiet(p, k, s, s');
    case ReadClock => QuietStage(p, k, s, id, Read(Millis(s.clock)), s');
    case Prune => QuietStage(p, k, s, id, Pruned(stage.now), s');
    case Add(m) => QuietStage(p, k, s, id, Added(stage.now, m), s');
    case Card => QuietStage(p, k, s, id, Counted(stage.now, stage.member, |Seen(p, s).zset|), s');
    case Renew => QuietStage(p, k, s, id, Renewed(stage.now, stage.member, stage.n), s');
    case Reply =>
      var s1 := ReplyStep(p, s, stage.member, stage.n);
      PaidMove(p, k, s1, id, Pipeline(true, stage.n <= p.limit));
      PaidSame(p, k, s, s1, s');
    case Fail => PaidMove(p, k, s, id, Pipeline(false, false));
    case Local =>
      var s1 := LocalStep(p, s, stage.now);
      PaidMove(p, k, s1, id, Fallback(|Keep(s.log, stage.now - p.window)| < p.limit));
      PaidSame(p, k, s, s1, s');
    case Gate(stamp) =>
      PaidMove(p, k, s.(clock := stamp), id, LockGate(s.clock, stamp));
      PaidSame(p, k, s, s.(clock := stamp), s');
    case Other(e) => PaidMove(p, k, s, id, e);
  }

  lemma QuietStage(p: Params, k: nat, s: System, id: nat, stage: Stage, s': System)
    requires id in s.calls && s'.calls == SetStage(s, id, stage).calls
    requires s'.core == s.core && s'.failOpens == s.failOpens && s'.probes == s.probes && s'.recoveries == s.recoveries
    ensures Paid(p, k, s, s')
  {
    StageQuiet(s, id, stage);
    PaidQuiet(p, k, s, s');
  }

  lemma PaidSame(p: Params, k: nat, s: System, s1: System, s': System)
    requires s1.core == s.core && s1.failOpens == s.failOpens && s1.probes == s.probes && s1.recoveries == s.recoveries
    requires s1.calls == s.calls && Paid(p, k, s1, s')
    ensures Paid(p, k, s, s')
  {
  }

  lemma PaidStep(p: Params, k: nat, s: System, a: Action)
    requires p.cfg.Valid() && s.core.failures < p.cfg.threshold && |s.calls| <= k && Act(p, s, a).Some?
    ensures Paid(p, k, s, Act(p, s, a).value)
  {
    hide StepOf, Armed, Probing, Seen;
    match a
    case Tick(t) =>
    case Start(id) =>
      ArmedUpdate(s.calls, id, Call(Entry, Fresh));
      ProbingUpdate(s.calls, id, Call(Entry, Fresh));
    case StrayPrune(now) =>
    case StrayAdd(m, now) =>
    case StrayRenew =>
    case StrayPipeline(m, now) =>
    case Evict(now) =>
    case Of(id, step) => PaidStepOf(p, k, s, id, step);
  }

  /** A run in which never more than k calls are in flight. */
  ghost predicate RunOf(p: Params, k: nat, states: seq<System>, actions: seq<Action>) {
    && p.cfg.Valid() && 1 <= k && Run(p, states, actions)
    && forall i :: 0 <= i < |states| ==> |states[i].calls| <= k
  }

  lemma PaidNothing(p: Params, k: nat, s: System)
    ensures Paid(p, k, s, s)
  {
  }

  lemma PaidTwice(p: Params, k: nat, s: System, s1: System, s2: System)
    requires Paid(p, k, s, s1) && Paid(p, k, s1, s2)
    ensures Paid(p, k, s, s2)
  {
  }

  lemma PaidNext(p: Params, k: nat, states: seq<System>, actions: seq<Action>, i: nat)
    requires RunOf(p, k, states, actions) && i + 1 < |states|
    ensures Paid(p, k, states[i], states[i + 1])
  {
    hide Act, Paid, CounterInv;
    FailOpenBounded(p, states, actions, i);
    assert Follows(p, states, actions, i);
    PaidStep(p, k, states[i], actions[i]);
  }

  lemma {:induction false} PaidRun(p: Params, k: nat, states: seq<System>, actions: seq<Action>, a: nat, b: nat)
    requires RunOf(p, k, states, actions) && a <= b < |states|
    ensures Paid(p, k, states[a], states[b])
    decreases b
  {
    if a == b {
      PaidNothing(p, k, states[a]);
    } else {
      hide *;
      PaidRun(p, k, states, actions, a, b - 1);
      PaidNext(p, k, states, actions, b - 1);
      PaidTwice(p, k, states[a], states[b - 1], states[b]);
    }
  }

  // ----- fail-open answers inside an interval -----

  /** What one action does to the histories that matter here. */
  ghost predicate Extends(s: System, s': System) {
    && s.clock <= s'.clock
    && (s'.failOpens == s.failOpens
        || (s'.failOpens == s.failOpens + [Millis(s.clock)] && s'.clock == s.clock
            && exists id :: id in s.calls && s.calls[id].pc == AtFailure))
    && (s'.probes == s.probes || s'.probes == s.probes + [s'.clock])
  }

  lemma MoveExtends(p: Params, s: System, s1: System, id: nat, e: Event)
    requires id in s.calls && s1.calls == s.calls && s1.failOpens == s.failOpens && s1.probes == s.probes && s.clock <= s1.clock
    requires s1.clock > s.clock ==> s.calls[id].pc != AtFailure || e.LockGate?
    requires Move(p, s1, id, e).Some?
    ensures Extends(s, Move(p, s1, id, e).value)
  {
  }

  lemma OfExtends(p: Params, s: System, id: nat, step: Step)
    requires id in s.calls && StepOf(p, s, id, step).Some?
    ensures Extends(s, StepOf(p, s, id, step).value)
  {
    hide Keep, Move, Seen, AfterPrune, AfterAdd, AfterCard, AfterRenew, AfterReply, Extends;
    var stage := s.calls[id].stage;
    match step
    case Reply => MoveExtends(p, s, ReplyStep(p, s, stage.member, stage.n), id, Pipeline(true, stage.n <= p.limit));
    case Fail => MoveExtends(p, s, s, id, Pipeline(false, false));
    case Local =>
      MoveExtends(p, s, LocalStep(p, s, stage.now), id, Fallback(|Keep(s.log, stage.now - p.window)| < p.limit));
    case Gate(stamp) => MoveExtends(p, s, s.(clock := stamp), id, LockGate(s.clock, stamp));
    case Other(e) => MoveExtends(p, s, s, id, e);
    case _ => QuietExtends(s, StepOf(p, s, id, step).value);
  }

  lemma QuietExtends(s: System, s': System)
    requires s.clock <= s'.clock && s'.failOpens == s.failOpens && s'.probes == s.probes
    ensures Extends(s, s')
  {
  }

  lemma StepExtends(p: Params, s: System, a: Action)
    requires Act(p, s, a).Some?
    ensures Extends(s, Act(p, s, a).value)
  {
    hide StepOf, Seen, AfterPrune, AfterAdd, AfterRenew, Extends;
    if a.Of? {
      OfExtends(p, s, a.id, a.step);
    } else {
      QuietExtends(s, Act(p, s, a).value);
    }
  }

  lemma RunExtends(p: Params, states: seq<System>, actions: seq<Action>, i: nat)
    requires Run(p, states, actions) && i + 1 < |states|
    ensures Extends(states[i], states[i + 1])
  {
    assert Follows(p, states, actions, i);
    StepExtends(p, states[i], actions[i]);
  }

  /** The part of the run between the first and the last fail-open answer inside [lo, hi]. */
  lemma {:induction false} Bracket(p: Params, states: seq<System>, actions: seq<Action>, n: nat, lo: int, hi: int)
    returns (a: nat, b: nat)
    requires Run(p, states, actions) && n < |states| && CountIn(states[n].failOpens, lo, hi) > 0
    ensures a < b <= n
    ensures CountIn(states[a].failOpens, lo, hi) == 0 && lo <= Millis(states[a].clock)
    ensures exists id :: id in states[a].calls && states[a].calls[id].pc == AtFailure
    ensures CountIn(states[b].failOpens, lo, hi) == CountIn(states[n].failOpens, lo, hi) && Millis(states[b].clock) <= hi
  {
    assert n > 0;
    RunExtends(p, states, actions, n - 1);
    var s := states[n - 1];
    CountAppend(s.failOpens, Millis(s.clock), lo, hi);
    if CountIn(states[n].failOpens, lo, hi) == CountIn(s.failOpens, lo, hi) {
      a, b := Bracket(p, states, actions, n - 1, lo, hi);
    } else if CountIn(s.failOpens, lo, hi) == 0 {
      a, b := n - 1, n;
    } else {
      a, b := Bracket(p, states, actions, n - 1, lo, hi);
      b := n;
    }
  }

  /** Between two points of a run: fail-opens inside the interval, and when probes can have started. */
  ghost predicate Later(s: System, s': System, lo: int, hi: int) {
    && CountIn(s'.failOpens, lo, hi) - CountIn(s.failOpens, lo, hi) <= |s'.failOpens| - |s.failOpens|
    && s.clock <= s'.clock && |s.probes| <= |s'.probes|
    && forall i :: |s.probes| <= i < |s'.probes| ==> s.clock <= s'.probes[i]
  }

  lemma LaterNext(p: Params, states: seq<System>, actions: seq<Action>, s: System, i: nat, lo: int, hi: int)
    requires Run(p, states, actions) && i + 1 < |states| && Later(s, states[i], lo, hi)
    ensures Later(s, states[i + 1], lo, hi)
  {
    hide Run, CountIn;
    RunExtends(p, states, actions, i);
    CountAppend(states[i].failOpens, Millis(states[i].clock), lo, hi);
  }

  lemma LaterNothing(s: System, lo: int, hi: int)
    ensures Later(s, s, lo, hi)
  {
  }

  lemma {:induction false} Between(p: Params, states: seq<System>, actions: seq<Action>, a: nat, b: nat, lo: int, hi: int)
    requires Run(p, states, actions) && a <= b < |states|
    ensures Later(states[a], states[b], lo, hi)
    decreases b
  {
    hide *;
    if a == b {
      LaterNothing(states[a], lo, hi);
    } else {
      Between(p, states, actions, a, b - 1, lo, hi);
      LaterNext(p, states, actions, states[a], b - 1, lo, hi);
    }
  }

  lemma {:induction false} SpacedApart(times: seq<int>, gap: int, i: nat, j: nat)
    requires Spaced(times, gap) && i <= j < |times|
    ensures times[j] - times[i] >= (j - i) * gap
  {
    if i < j {
      SpacedApart(times, gap, i, j - 1);
      assert (j - i) * gap == (j - 1 - i) * gap + gap;
    }
  }

  /** Probes started within a stretch of time: one, and one more per whole interval. */
  lemma ProbesWithin(p: Params, states: seq<System>, actions: seq<Action>, a: nat, b: nat, span: nat)
    requires Run(p, states, actions) && p.cfg.Valid() && a <= b < |states|
    requires states[b].clock - states[a].clock <= span
    ensures |states[b].probes| - |states[a].probes| <= 1 + span / p.cfg.interval
  {
    Between(p, states, actions, a, b, 0, 0);
    ProbesSpaced(p, states, actions, b);
    var first, last := |states[a].probes|, |states[b].probes| - 1;
    if first <= last {
      SpacedApart(states[b].probes, p.cfg.interval, first, last);
      DivideBound(last - first, p.cfg.interval, span);
    }
  }

  /** Fail-open answers inside an interval of at most `window` milliseconds: with k calls in flight, the
      counter can run to the threshold, and the k calls already under way can drain, once to begin
      with, once per probe pending and once per probe started. */
  lemma FailOpensWithin(p: Params, k: nat, states: seq<System>, actions: seq<Action>, n: nat, lo: int, hi: int)
    requires RunOf(p, k, states, actions) && n < |states| && 0 <= hi - lo < p.window
    ensures CountIn(states[n].failOpens, lo, hi)
            <= (p.cfg.threshold + k - 2) * (k + 1 + p.window * NANOS / p.cfg.interval)
  {
    var m := p.cfg.threshold + k - 2;
    if CountIn(states[n].failOpens, lo, hi) == 0 {
      assert 0 <= m * (k + 1 + p.window * NANOS / p.cfg.interval);
    } else {
      var a, b := Bracket(p, states, actions, n, lo, hi);
      hide CountIn, Act, Paid;
      Between(p, states, actions, a, b, lo, hi);
      StretchLength(states[a].clock, states[b].clock, lo, hi, p.window);
      ProbesWithin(p, states, actions, a, b, p.window * NANOS);
      Settled(p, k, states, actions, a, b, p.window * NANOS / p.cfg.interval);
    }
  }

  /** The account between a fail-open answer and a later point, with so many probes started in between. */
  lemma Settled(p: Params, k: nat, states: seq<System>, actions: seq<Action>, a: nat, b: nat, q: nat)
    requires RunOf(p, k, states, actions) && a <= b < |states|
    requires |states[a].failOpens| < |states[b].failOpens|
    requires exists id :: id in states[a].calls && states[a].calls[id].pc == AtFailure
    requires |states[b].probes| - |states[a].probes| <= 1 + q
    ensures |states[b].failOpens| - |states[a].failOpens| <= (p.cfg.threshold + k - 2) * (k + 1 + q)
  {
    hide Potential, Act, CounterInv;
    PaidRun(p, k, states, actions, a, b);
    OneNotProbing(states[a].calls);
    ThresholdAboveOne(p, states, actions, b);
    PotentialBounds(p, k, states, actions, a);
    PotentialBounds(p, k, states, actions, b);
    var m, ra, rb := p.cfg.threshold + k - 2, states[a].recoveries, states[b].recoveries;
    assert rb * m == ra * m + (rb - ra) * m;
    Scale(rb - ra, k + q, m);
    assert m + (k + q) * m == m * (k + 1 + q);
  }

  lemma StretchLength(from: nat, to: nat, lo: int, hi: int, window: nat)
    requires lo <= Millis(from) && Millis(to) <= hi && hi - lo < window
    ensures to - from <= window * NANOS
  {
  }

  lemma OneNotProbing(calls: map<nat, Call>)
    requires exists id :: id in calls && calls[id].pc == AtFailure
    ensures |Probing(calls)| <= |calls| - 1
  {
    var id :| id in calls && calls[id].pc == AtFailure;
    SubsetSize(Probing(calls), calls.Keys - {id});
  }

  /** A threshold of one never fails open, so only thresholds from two on need the bound. */
  lemma ThresholdAboveOne(p: Params, states: seq<System>, actions: seq<Action>, b: nat)
    requires p.cfg.Valid() && Run(p, states, actions) && b < |states| && |states[b].failOpens| > 0
    ensures p.cfg.threshold >= 2
  {
    FailOpenBounded(p, states, actions, b);
  }

  lemma PotentialBounds(p: Params, k: nat, states: seq<System>, actions: seq<Action>, a: nat)
    requires RunOf(p, k, states, actions) && a < |states| && 2 <= p.cfg.threshold
    ensures 0 <= Potential(p, k, states[a]) <= p.cfg.threshold + k - 2
  {
    FailOpenBounded(p, states, actions, a);
    ArmedAtMost(states[a].calls);
  }

  // ----- all admissions -----

  /** Everything answered "allowed" inside [lo, hi]: Redis and fallback admissions by the clock reading
      they logged, fail-open answers by when they were given. */
  ghost function AdmissionsIn(s: System, lo: int, hi: int): nat
    requires s.store.admitted <= s.store.scores.Keys
  {
    |InSpan(s.store.admitted, s.store.scores, lo, hi)| + CountIn(s.local, lo, hi) + CountIn(s.failOpens, lo, hi)
  }

  /** The Redis admissions among them that a deadline wiped while their pipeline was under way. */
  ghost function StraddlersIn(s: System, lo: int, hi: int): nat
    requires s.store.admitted <= s.store.scores.Keys
  {
    |InSpan(s.store.admitted * s.store.lost, s.store.scores, lo, hi)|
  }

  /** The most a request was ever logged or counted behind the newest time up to which its window had been dropped. */
  function LagOf(s: System): nat { Max(s.store.lag, s.lag) }

  ghost predicate DenyInv(p: Params, s: System) { p.cfg.deny ==> s.local == [] }

  lemma {:induction false} LogsBounded(p: Params, states: seq<System>, actions: seq<Action>, n: nat)
    requires p.cfg.Valid() && Run(p, states, actions) && n < |states|
    ensures RedisInv(p, states[n]) && LocalInv(p, states[n]) && DenyInv(p, states[n])
  {
    hide Act, RedisInv, LocalInv, DenyInv;
    RedisHolds(p, states, actions, n);
    if n > 0 {
      LogsBounded(p, states, actions, n - 1);
      assert Follows(p, states, actions, n - 1);
      LocalInvStep(p, states[n - 1], actions[n - 1]);
      DenyStep(p, states[n - 1], actions[n - 1]);
    } else {
      InitBounded(p);
    }
  }

  lemma InitBounded(p: Params)
    ensures LocalInv(p, INIT) && DenyInv(p, INIT)
  {
  }

  lemma DenyStep(p: Params, s: System, a: Action)
    requires DenyInv(p, s) && Act(p, s, a).Some?
    ensures DenyInv(p, Act(p, s, a).value)
  {
    hide Keep, Seen, AfterPrune, AfterAdd, AfterCard, AfterRenew, AfterReply, Advance;
  }

  // ----- deadlines that catch pipelines under way -----

  lemma StepLapses(p: Params, s: System, id: nat, step: Step)
    requires id in s.calls && StepOf(p, s, id, step).Some?
    ensures var st' := StepOf(p, s, id, step).value.store; SameLapses(s.store, st') || SameLapses(Seen(p, s), st')
  {
    hide Keep, Seen, Advance, SameLapses, AfterPrune, AfterAdd, AfterCard, AfterRenew, AfterReply;
    var stage := s.calls[id].stage;
    CommandLapses(p, s.store, if HasMember(stage) then stage.member else 0, 0, 0);
    if stage != Fresh {
      CommandLapses(p, Seen(p, s), if HasMember(stage) then stage.member else if step.Add? then step.member else 0,
                    stage.now, Millis(s.clock));
    }
  }

  /** An action changes what deadlines wiped only by letting the present deadline take effect. */
  lemma LapsesOnlySeen(p: Params, s: System, a: Action)
    requires Act(p, s, a).Some?
    ensures var st' := Act(p, s, a).value.store; SameLapses(s.store, st') || SameLapses(Seen(p, s), st')
  {
    hide StepOf, Seen, SameLapses, AfterPrune, AfterAdd, AfterCard, AfterRenew, AfterReply;
    CommandLapses(p, s.store, 0, 0, 0);
    match a
    case Of(id, step) => StepLapses(p, s, id, step);
    case StrayPrune(now) => CommandLapses(p, Seen(p, s), 0, now, 0);
    case StrayAdd(m, now) => CommandLapses(p, Seen(p, s), m, now, 0);
    case StrayRenew => CommandLapses(p, Seen(p, s), 0, 0, Millis(s.clock));
    case StrayPipeline(m, now) => PipelineLapses(p, s, m, now);
    case _ =>
  }

  lemma FlyingFew(calls: map<nat, Call>)
    ensures |Flying(calls)| <= |calls|
    decreases |calls|
  {
    if calls != map[] {
      var id :| id in calls;
      var rest := calls - {id};
      assert rest.Keys == calls.Keys - {id};
      FlyingFew(rest);
      var own := if HasMember(calls[id].stage) then {calls[id].stage.member} else {};
      assert Flying(calls) <= Flying(rest) + own by {
        forall m | m in Flying(calls) ensures m in Flying(rest) + own {
          var x :| x in calls && HasMember(calls[x].stage) && calls[x].stage.member == m;
          if x != id { assert x in rest; }
        }
      }
      SubsetSize(Flying(calls), Flying(rest) + own);
    }
  }

  lemma {:induction false} FewHolds(p: Params, k: nat, states: seq<System>, actions: seq<Action>, n: nat)
    requires RunOf(p, k, states, actions) && n < |states|
    ensures FewEach(states[n].store, k)
  {
    hide Act, RedisInv, FewEach;
    if n == 0 {
      NoneEach(k);
    } else {
      var s := states[n - 1];
      FewHolds(p, k, states, actions, n - 1);
      RedisHolds(p, states, actions, n - 1);
      assert Follows(p, states, actions, n - 1);
      FlyingFew(s.calls);
      SeenFew(p, s, k);
      LapsesOnlySeen(p, s, actions[n - 1]);
      FewSame(s.store, states[n].store, k);
      FewSame(Seen(p, s), states[n].store, k);
    }
  }

  lemma NoneEach(k: nat)
    ensures FewEach(EMPTY, k)
  {
    forall j {:trigger At(map[], j)} ensures At(map[], j) == {} {}
  }

  lemma SeenFew(p: Params, s: System, k: nat)
    requires RedisInv(p, s) && FewEach(s.store, k) && |Flying(s.calls)| <= k
    ensures FewEach(Seen(p, s), k)
  {
    hide FewEach, Flying, Live, SetInv, GrantInv;
    LiveFew(s.store, Millis(s.clock), p.window, Flying(s.calls), k);
  }

  lemma FewSame(st: Store, st': Store, k: nat)
    requires FewEach(st, k)
    ensures SameLapses(st, st') ==> FewEach(st', k)
  {
  }

  /** The throttle bound: with at most k calls in flight and counts never taken more than the lag behind the
      newest reading, an interval shorter than the window by that lag sees at most the limit twice (once
      in deny mode) plus the bounded fail-open answers, and plus the admissions a deadline wiped while their
      pipelines were under way, of which there is at most one for every call in flight if commands take effect
      within a second of their reading, and at most two if not. */
  lemma Throttle(p: Params, k: nat, states: seq<System>, actions: seq<Action>, n: nat, lo: int, hi: int)
    requires RunOf(p, k, states, actions) && n < |states|
    requires 0 <= hi - lo && hi - lo + LagOf(states[n]) < p.window
    ensures states[n].store.admitted <= states[n].store.scores.Keys
    ensures AdmissionsIn(states[n], lo, hi)
            <= (if p.cfg.deny then 1 else 2) * p.limit + StraddlersIn(states[n], lo, hi)
               + (p.cfg.threshold + k - 2) * (k + 1 + p.window * NANOS / p.cfg.interval)
    ensures StraddlersIn(states[n], lo, hi) <= if states[n].delay <= SLACK then k else 2 * k
  {
    RunOfRuns(p, k, states, actions);
    hide Run;
    LogsBounded(p, states, actions, n);
    FewHolds(p, k, states, actions, n);
    FailOpensWithin(p, k, states, actions, n, lo, hi);
    LateHolds(p, states, actions, n);
    if states[n].delay <= SLACK { ShareScored(p, states[n]); PromptStraddlers(p, k, states[n], lo, hi); }
    RedisShare(p, k, states[n], lo, hi);
    LocalShare(p, states[n], lo, hi);
  }

  lemma RunOfRuns(p: Params, k: nat, states: seq<System>, actions: seq<Action>)
    requires RunOf(p, k, states, actions)
    ensures p.cfg.Valid() && Run(p, states, actions)
  {
  }

  lemma ShareScored(p: Params, s: System)
    requires RedisInv(p, s)
    ensures s.store.admitted <= s.store.scores.Keys
  {
    assert SetInv(p.window, s.store);
  }

  lemma RedisShare(p: Params, k: nat, s: System, lo: int, hi: int)
    requires RedisInv(p, s) && FewEach(s.store, k) && hi - lo + s.store.lag < p.window
    ensures s.store.admitted <= s.store.scores.Keys
    ensures |InSpan(s.store.admitted, s.store.scores, lo, hi)| <= p.limit + StraddlersIn(s, lo, hi)
    ensures StraddlersIn(s, lo, hi) <= 2 * k
  {
    assert SetInv(p.window, s.store);
    hide DeadlineInv, FewEach, GrantInv, Flying, Renewing;
    AdmittedWithin(p.limit, p.window, k, Millis(s.clock), s.store, Flying(s.calls), Renewing(s.calls), lo, hi);
  }

  lemma LocalShare(p: Params, s: System, lo: int, hi: int)
    requires LocalInv(p, s) && DenyInv(p, s) && hi - lo + s.lag < p.window
    ensures CountIn(s.local, lo, hi) <= if p.cfg.deny then 0 else p.limit
  {
  }
}
