/** Any number of concurrent calls of Allow, interleaved step by step, as they bear on one key: every lock section
    and every Redis command is one atomic action, and Redis may also be reached by commands of calls that gave
    up or of other gateway replicas. Calls for other keys share the limiter's state but not the key's. */
module LimiterSystem {
  import opened Options
  import opened SlidingWindow
  import opened LimiterCore
  import opened LimiterStore

  /** time.Time.UnixMilli */
  function Millis(t: nat): nat { t / NANOS }

  /** The key's limit, and its window in milliseconds. */
  datatype Params = Params(cfg: Config, limit: nat, window: nat)

  /** How far the call's current pipeline or fallback section has got. */
  datatype Stage =
    | Fresh
    | Read(now: int)
    | Pruned(now: int)
    | Added(now: int, member: nat)
    | Counted(now: int, member: nat, n: nat)
    | Renewed(now: int, member: nat, n: nat)

  datatype Call = Call(pc: Pc, stage: Stage)

  datatype System = System(
    clock: nat,                 // nanoseconds
    core: Core,
    calls: map<nat, Call>,      // the calls in flight
    store: Store,               // the key in Redis
    log: seq<int>,              // the fallback's log of the key
    // what has happened so far
    logged: seq<int>,           // every request the fallback logged
    local: seq<int>,            // those of them it allowed
    newest: int,                // the newest clock reading the fallback used
    lag: nat,                   // the most it logged behind that reading
    delay: nat,                 // the longest a call's command took effect after the call's clock reading, in milliseconds
    failOpens: seq<int>,        // when calls were answered "allowed" because Redis failed, in milliseconds
    probes: seq<int>,           // when probes started, in nanoseconds
    recoveries: nat,
    degradations: nat
  )

  const INIT := System(0, FRESH, map[], EMPTY, [], [], [], 0, 0, 0, [], [], 0, 0)

  /** The atomic actions of one call. */
  datatype Step =
    | Finish
    | ReadClock
    | Prune
    | Add(member: nat)
    | Card
    | Renew
    | Reply            // Exec returns without error
    | Fail             // Exec returns an error, after any of the commands
    | Local            // the fallback's lock section
    | Gate(stamp: nat) // the probe gate's lock section; it reads the clock twice
    | Other(e: Event)  // any other atomic step; a pipeline or the fallback's lock section for another key

  datatype Action =
    | Tick(t: nat)
    | Start(id: nat)
    | Of(id: nat, step: Step)
    | StrayPrune(now: int)
    | StrayAdd(member: nat, now: int)
    | StrayRenew
    | StrayPipeline(member: nat, now: int)  // all four commands of a pipeline at one instant
    | Evict(now: int)                       // the fallback drops the key's log for another key's request read at `now`

  /** The members of the pipelines under way. */
  function Flying(calls: map<nat, Call>): set<nat> {
    set id | id in calls && HasMember(calls[id].stage) :: calls[id].stage.member
  }

  predicate HasMember(stage: Stage) { stage.Added? || stage.Counted? || stage.Renewed? }

  /** Those of them whose pipeline has renewed the deadline. */
  function Renewing(calls: map<nat, Call>): set<nat> {
    set id | id in calls && calls[id].stage.Renewed? :: calls[id].stage.member
  }

  /** The key as a Redis command finds it now. */
  function Seen(p: Params, s: System): Store {
    Live(s.store, Millis(s.clock), p.window, Flying(s.calls))
  }

  /** The key after all commands of a pipeline read at `now`. */
  function PipelineAt(p: Params, s: System, m: nat, now: int): Store {
    AfterRenew(AfterAdd(AfterPrune(Seen(p, s), p.window, now), m, now), Millis(s.clock), p.window)
  }

  /** The log has left a window that starts here; only then is its key evicted while keys are few enough. */
  predicate AllBefore(log: seq<int>, start: int) { forall i :: 0 <= i < |log| ==> log[i] < start }

  function SetStage(s: System, id: nat, stage: Stage): System
    requires id in s.calls
  {
    s.(calls := s.calls[id := Call(s.calls[id].pc, stage)])
  }

  /** The call's next command has left the key like this. */
  function Command(s: System, id: nat, stage: Stage, store: Store): System
    requires id in s.calls && !stage.Fresh?
  {
    SetStage(s, id, stage).(store := store, delay := Max(s.delay, Millis(s.clock) - stage.now))
  }

  /** Lets the call take one step of its program and records what that meant. */
  function Move(p: Params, s: System, id: nat, e: Event): Option<System>
    requires id in s.calls
  {
    var pc := s.calls[id].pc;
    match Advance(p.cfg, s.core, pc, e)
    case None => None
    case Some((core, pc')) =>
      Some(s.(core := core,
              calls := s.calls[id := Call(pc', Fresh)],
              failOpens := if pc == AtFailure && pc' == Answered(FailOpen) then s.failOpens + [Millis(s.clock)] else s.failOpens,
              probes := if pc == AtGate && pc' == AtPing then s.probes + [s.clock] else s.probes,
              recoveries := if pc == AtRecover then s.recoveries + 1 else s.recoveries,
              degradations := if pc == AtFailure && pc' == AtGate then s.degradations + 1 else s.degradations))
  }

  /** The pipeline has succeeded; its count decides. */
  function ReplyStep(p: Params, s: System, member: nat, n: nat): System {
    s.(store := if n <= p.limit then AfterReply(s.store, member) else s.store)
  }

  function LocalStep(p: Params, s: System, now: int): System {
    var log := Keep(s.log, now - p.window) + [now];
    s.(log := log, logged := s.logged + [now],
       local := if |log| <= p.limit then s.local + [now] else s.local,
       newest := Max(s.newest, now),
       lag := Max(s.lag, s.newest - now))
  }

  /** One atomic action of a call in flight; None when it is not enabled. */
  function StepOf(p: Params, s: System, id: nat, step: Step): Option<System>
    requires id in s.calls
  {
    var Call(pc, stage) := s.calls[id];
    match step
    case Finish => if pc.Answered? then Some(s.(calls := s.calls - {id})) else None
    case ReadClock =>
      if stage == Fresh && (pc == AtRedis || (pc == AtFallback && !p.cfg.deny))
      then Some(SetStage(s, id, Read(Millis(s.clock)))) else None
    case Prune =>
      if pc == AtRedis && stage.Read?
      then Some(Command(s, id, Pruned(stage.now), AfterPrune(Seen(p, s), p.window, stage.now))) else None
    case Add(m) =>
      if pc == AtRedis && stage.Pruned? && m !in s.store.scores
      then Some(Command(s, id, Added(stage.now, m), AfterAdd(Seen(p, s), m, stage.now))) else None
    case Card =>
      if pc == AtRedis && stage.Added?
      then Some(Command(s, id, Counted(stage.now, stage.member, |Seen(p, s).zset|),
                        AfterCard(Seen(p, s), p.limit, stage.member, stage.now))) else None
    case Renew =>
      if pc == AtRedis && stage.Counted?
      then Some(Command(s, id, Renewed(stage.now, stage.member, stage.n),
                        AfterRenew(Seen(p, s), Millis(s.clock), p.window))) else None
    case Reply =>
      if pc == AtRedis && stage.Renewed?
      then Move(p, ReplyStep(p, s, stage.member, stage.n), id, Pipeline(true, stage.n <= p.limit)) else None
    case Fail => if pc == AtRedis && stage != Fresh then Move(p, s, id, Pipeline(false, false)) else None
    case Local =>
      if pc == AtFallback && !p.cfg.deny && stage.Read?
      then Move(p, LocalStep(p, s, stage.now), id, Fallback(|Keep(s.log, stage.now - p.window)| < p.limit)) else None
    case Gate(stamp) => if s.clock <= stamp then Move(p, s.(clock := stamp), id, LockGate(s.clock, stamp)) else None
    case Other(e) =>
      if e.LockGate? || (stage != Fresh && (e.Pipeline? || (e.Fallback? && !p.cfg.deny))) then None else Move(p, s, id, e)
  }

  function Act(p: Params, s: System, a: Action): Option<System> {
    match a
    case Tick(t) => if s.clock <= t then Some(s.(clock := t)) else None
    case Start(id) => if id !in s.calls then Some(s.(calls := s.calls[id := Call(Entry, Fresh)])) else None
    case Of(id, step) => if id in s.calls then StepOf(p, s, id, step) else None
    case StrayPrune(now) => if now <= Millis(s.clock) then Some(s.(store := AfterPrune(Seen(p, s), p.window, now))) else None
    case StrayAdd(m, now) => if 0 <= now && m !in s.store.scores then Some(s.(store := AfterAdd(Seen(p, s), m, now))) else None
    case StrayRenew => Some(s.(store := AfterRenew(Seen(p, s), Millis(s.clock), p.window)))
    case StrayPipeline(m, now) =>
      if 0 <= now <= Millis(s.clock) && m !in s.store.scores then Some(s.(store := PipelineAt(p, s, m, now))) else None
    case Evict(now) =>
      if now <= Millis(s.clock) && AllBefore(s.log, now - p.window)
      then Some(s.(log := [], newest := Max(s.newest, now))) else None
  }

  /** A run: every state follows from the one before by one action. */
  ghost predicate Run(p: Params, states: seq<System>, actions: seq<Action>) {
    && |states| == |actions| + 1 && states[0] == INIT
    && forall i :: 0 <= i < |actions| ==> Follows(p, states, actions, i)
  }

  ghost predicate Follows(p: Params, states: seq<System>, actions: seq<Action>, i: nat)
    requires i < |actions| && i + 1 < |states|
  {
    Act(p, states[i], actions[i]) == Some(states[i + 1])
  }

  // ----- the counter and the fail-open answers -----

  /** Holds at every point where the mutex is free, whatever the interleaving. */
  ghost predicate CounterInv(p: Params, s: System) {
    && s.core.failures < p.cfg.threshold
    && |s.failOpens| <= (p.cfg.threshold - 1) * (s.degradations + s.recoveries) + s.core.failures
  }

  lemma CounterMove(p: Params, s: System, id: nat, e: Event)
    requires p.cfg.Valid() && CounterInv(p, s) && id in s.calls && Move(p, s, id, e).Some?
    ensures CounterInv(p, Move(p, s, id, e).value)
  {
    Reset(p.cfg.threshold - 1, s.degradations + s.recoveries);
  }

  lemma Reset(t: nat, d: nat)
    ensures t * (d + 1) == t * d + t && t * d >= 0
  {
  }

  lemma CounterStep(p: Params, s: System, a: Action)
    requires p.cfg.Valid() && CounterInv(p, s) && Act(p, s, a).Some?
    ensures CounterInv(p, Act(p, s, a).value)
  {
    hide Move, Keep, Advance;
    if a.Of? {
      var Call(pc, stage) := s.calls[a.id];
      match a.step
      case Reply =>
        CounterMove(p, ReplyStep(p, s, stage.member, stage.n), a.id, Pipeline(true, stage.n <= p.limit));
      case Fail => CounterMove(p, s, a.id, Pipeline(false, false));
      case Local =>
        CounterMove(p, LocalStep(p, s, stage.now), a.id, Fallback(|Keep(s.log, stage.now - p.window)| < p.limit));
      case Gate(stamp) => CounterMove(p, s.(clock := stamp), a.id, LockGate(s.clock, stamp));
      case Other(e) => CounterMove(p, s, a.id, e);
      case _ =>
    }
  }

  /** Fail-open is bounded in every interleaving: each spell between two resets of the counter answers at
      most threshold - 1 requests without having asked anyone. */
  lemma {:induction false} FailOpenBounded(p: Params, states: seq<System>, actions: seq<Action>, n: nat)
    requires p.cfg.Valid() && Run(p, states, actions) && n < |states|
    ensures states[n].core.failures < p.cfg.threshold
    ensures |states[n].failOpens| <= (p.cfg.threshold - 1) * (1 + states[n].degradations + states[n].recoveries)
    ensures CounterInv(p, states[n])
  {
    hide Act;
    if n > 0 {
      FailOpenBounded(p, states, actions, n - 1);
      assert Follows(p, states, actions, n - 1);
      CounterStep(p, states[n - 1], actions[n - 1]);
    }
    Reset(p.cfg.threshold - 1, states[n].degradations + states[n].recoveries);
  }

  // ----- what the counter counts

  /** A degradation or a recovery happened in the i-th step. */
  ghost predicate Resets(states: seq<System>, i: nat)
    requires i + 1 < |states|
  {
    states[i].degradations < states[i + 1].degradations || states[i].recoveries < states[i + 1].recoveries
  }

  /** The failures counted under the lock since the last degradation or recovery, by whichever calls. */
  ghost function FailuresSince(states: seq<System>, actions: seq<Action>, n: nat): nat
    requires n <= |actions| < |states|
  {
    if n == 0 || Resets(states, n - 1) then 0
    else FailuresSince(states, actions, n - 1) + if Counts(actions[n - 1]) then 1 else 0
  }

  predicate Counts(a: Action) { a.Of? && a.step == Other(LockFailure) }

  lemma OneCount(p: Params, s: System, a: Action)
    requires Act(p, s, a).Some?
    ensures var s' := Act(p, s, a).value;
            && (s'.degradations > s.degradations <==> Counts(a) && s.core.failures + 1 >= p.cfg.threshold)
            && (s'.core.failures == if s'.degradations > s.degradations || s'.recoveries > s.recoveries then 0
                                    else s.core.failures + if Counts(a) then 1 else 0)
  {
    hide Keep, Without;
  }

  /** The counter is the number of failures since the last degradation or recovery, whatever succeeded in between,
      in every interleaving; and exactly the failure that brings it to the threshold degrades. */
  lemma {:induction false} CounterCounts(p: Params, states: seq<System>, actions: seq<Action>, n: nat)
    requires Run(p, states, actions) && n <= |actions|
    ensures states[n].core.failures == FailuresSince(states, actions, n)
    ensures n < |actions| ==>
              (states[n + 1].degradations > states[n].degradations
               <==> Counts(actions[n]) && FailuresSince(states, actions, n) + 1 >= p.cfg.threshold)
  {
    hide Act;
    if n > 0 {
      CounterCounts(p, states, actions, n - 1);
      assert Follows(p, states, actions, n - 1);
      OneCount(p, states[n - 1], actions[n - 1]);
    }
    if n < |actions| {
      assert Follows(p, states, actions, n);
      OneCount(p, states[n], actions[n]);
    }
  }

  // ----- probes -----

  ghost predicate Spaced(times: seq<int>, gap: int) {
    forall i :: 0 < i < |times| ==> times[i] - times[i - 1] >= gap
  }

  ghost predicate ProbeInv(p: Params, s: System) {
    && Spaced(s.probes, p.cfg.interval)
    && s.core.lastProbe == (if s.probes == [] then None else Some(s.probes[|s.probes| - 1]))
    && (s.probes != [] ==> s.probes[|s.probes| - 1] <= s.clock)
  }

  lemma ProbeMove(p: Params, s: System, id: nat, e: Event)
    requires ProbeInv(p, s) && id in s.calls && Move(p, s, id, e).Some?
    requires e.LockGate? ==> e.stamp == s.clock
    ensures ProbeInv(p, Move(p, s, id, e).value)
  {
  }

  lemma ProbeStep(p: Params, s: System, a: Action)
    requires ProbeInv(p, s) && Act(p, s, a).Some?
    ensures ProbeInv(p, Act(p, s, a).value)
  {
    hide Move, Keep, Advance;
    if a.Of? {
      var Call(pc, stage) := s.calls[a.id];
      match a.step
      case Reply =>
        ProbeMove(p, ReplyStep(p, s, stage.member, stage.n), a.id, Pipeline(true, stage.n <= p.limit));
      case Fail => ProbeMove(p, s, a.id, Pipeline(false, false));
      case Local =>
        ProbeMove(p, LocalStep(p, s, stage.now), a.id, Fallback(|Keep(s.log, stage.now - p.window)| < p.limit));
      case Gate(stamp) => ProbeMove(p, s.(clock := stamp), a.id, LockGate(s.clock, stamp));
      case Other(e) => ProbeMove(p, s, a.id, e);
      case _ =>
    }
  }

  /** However many calls race, two probes never start within one interval. */
  lemma {:induction false} ProbesSpaced(p: Params, states: seq<System>, actions: seq<Action>, n: nat)
    requires Run(p, states, actions) && n < |states|
    ensures ProbeInv(p, states[n])
  {
    if n > 0 {
      ProbesSpaced(p, states, actions, n - 1);
      assert Follows(p, states, actions, n - 1);
      ProbeStep(p, states[n - 1], actions[n - 1]);
    }
  }

  // ----- the fallback's log -----

  ghost predicate LocalInv(p: Params, s: System) {
    && (forall lo, hi {:trigger CountIn(s.log, lo, hi)} ::
          s.newest - p.window <= lo ==> CountIn(s.log, lo, hi) == CountIn(s.logged, lo, hi))
    && (forall lo, hi {:trigger CountIn(s.local, lo, hi)} :: CountIn(s.local, lo, hi) <= CountIn(s.logged, lo, hi))
    && (forall lo, hi {:trigger CountIn(s.local, lo, hi)} :: hi - lo + s.lag <= p.window ==> CountIn(s.local, lo, hi) <= p.limit)
  }

  lemma LocalKeeps(p: Params, s: System, now: int)
    requires LocalInv(p, s)
    ensures LocalInv(p, LocalStep(p, s, now))
  {
    hide Keep, CountIn;
    var s' := LocalStep(p, s, now);
    forall lo, hi
      ensures s'.newest - p.window <= lo ==> CountIn(s'.log, lo, hi) == CountIn(s'.logged, lo, hi)
      ensures CountIn(s'.local, lo, hi) <= CountIn(s'.logged, lo, hi)
      ensures hi - lo + s'.lag <= p.window ==> CountIn(s'.local, lo, hi) <= p.limit
    {
      CountAppend(Keep(s.log, now - p.window), now, lo, hi);
      CountAppend(s.logged, now, lo, hi);
      CountAppend(s.local, now, lo, hi);
      if now - p.window <= lo { KeepPreservesCount(s.log, now - p.window, lo, hi); }
      assert CountIn(s.local, lo, hi) <= CountIn(s.logged, lo, hi);
    }
  }

  /** Forgetting a log that has left the window forgets nothing that counts. */
  lemma EvictKeeps(p: Params, s: System, now: int)
    requires LocalInv(p, s) && AllBefore(s.log, now - p.window)
    ensures LocalInv(p, s.(log := [], newest := Max(s.newest, now)))
  {
    hide CountIn;
    forall lo, hi | now - p.window <= lo ensures CountIn(s.log, lo, hi) == 0 && CountIn([], lo, hi) == 0 {
      NoneFrom(s.log, lo, hi);
      NoneFrom([], lo, hi);
    }
  }

  lemma {:induction false} NoneFrom(times: seq<int>, lo: int, hi: int)
    requires AllBefore(times, lo)
    ensures CountIn(times, lo, hi) == 0
  {
    if times != [] { NoneFrom(times[..|times| - 1], lo, hi); }
  }

  lemma LocalInvStep(p: Params, s: System, a: Action)
    requires LocalInv(p, s) && Act(p, s, a).Some?
    ensures LocalInv(p, Act(p, s, a).value)
  {
    hide Keep, CountIn, Advance, LocalStep, AllBefore;
    if a.Of? && a.step == Local {
      LocalKeeps(p, s, s.calls[a.id].stage.now);
    } else if a.Evict? {
      EvictKeeps(p, s, a.now);
    }
  }
}
