/** The Redis key under interleaved pipelines: every action of the concurrent limiter keeps its grants within
    the limit and its deadline from wiping admissions unawares. */
module LimiterRedis {
  import opened Options
  import opened SlidingWindow
  import opened LimiterCore
  import opened LimiterStore
  import opened LimiterSystem

  ghost predicate StageInv(p: Params, clock: nat, st: Store, stage: Stage) {
    && (stage != Fresh ==> stage.now <= Millis(clock))
    && (HasMember(stage) ==> stage.member in st.scores && st.scores[stage.member] == stage.now)
    && ((stage.Counted? || stage.Renewed?) && stage.n <= p.limit ==> stage.member in st.granted)
  }

  ghost predicate StagesInv(p: Params, s: System) {
    forall id :: id in s.calls ==> StageInv(p, s.clock, s.store, s.calls[id].stage)
  }

  ghost predicate TimedInv(p: Params, s: System) {
    DeadlineInv(p.window, Millis(s.clock), s.store, Flying(s.calls), Renewing(s.calls))
  }

  /** The set is complete, its grants are within the limit, and no deadline wipes an admission unawares. */
  ghost predicate RedisInv(p: Params, s: System) {
    StoreInv(p.limit, p.window, s.store) && StagesInv(p, s) && TimedInv(p, s)
  }

  // ----- members and stages

  /** Members are only added, and grants only made. */
  ghost predicate Grows(st: Store, st': Store) {
    && (forall m :: m in st.scores ==> m in st'.scores && st'.scores[m] == st.scores[m])
    && st.granted <= st'.granted
  }

  lemma CommandGrows(p: Params, s: System, m: nat, now: int)
    ensures Grows(s.store, Seen(p, s)) && Seen(p, s).scores == s.store.scores
    ensures Grows(s.store, AfterPrune(Seen(p, s), p.window, now)) && Grows(s.store, AfterCard(Seen(p, s), p.limit, m, now))
    ensures Grows(s.store, AfterRenew(Seen(p, s), Millis(s.clock), p.window)) && Grows(s.store, AfterReply(s.store, m))
    ensures m !in s.store.scores ==> Grows(s.store, AfterAdd(Seen(p, s), m, now))
  {
    hide Without, Wiped;
  }

  lemma PipelineGrows(p: Params, s: System, m: nat, now: int)
    requires m !in s.store.scores
    ensures Grows(s.store, PipelineAt(p, s, m, now))
  {
    hide Without, Wiped;
  }

  /** No action takes a member or a grant back, turns the clock back, or touches another call. */
  ghost predicate Frame(s: System, a: Action, s': System) {
    && Grows(s.store, s'.store) && s.clock <= s'.clock
    && (forall id :: id in s'.calls && !(a.Of? && a.id == id) && !(a.Start? && a.id == id)
                     ==> id in s.calls && s'.calls[id] == s.calls[id])
  }

  lemma StepFrames(p: Params, s: System, id: nat, step: Step)
    requires id in s.calls && StepOf(p, s, id, step).Some?
    ensures Frame(s, Of(id, step), StepOf(p, s, id, step).value)
  {
    hide Advance, Seen, AfterPrune, AfterAdd, AfterCard, AfterRenew, AfterReply, Grows;
    var stage := s.calls[id].stage;
    match step
    case Finish => SameGrows(s.store);
    case ReadClock => SameGrows(s.store);
    case Prune => CommandGrows(p, s, 0, stage.now);
    case Add(m) => CommandGrows(p, s, m, stage.now);
    case Card => CommandGrows(p, s, stage.member, stage.now);
    case Renew => CommandGrows(p, s, 0, 0);
    case Reply => SameGrows(s.store); CommandGrows(p, s, stage.member, 0);
    case Fail => SameGrows(s.store);
    case Local => SameGrows(s.store);
    case Gate(stamp) => SameGrows(s.store);
    case Other(e) => SameGrows(s.store);
  }

  lemma SameGrows(st: Store)
    ensures Grows(st, st)
  {
  }

  lemma ActFrames(p: Params, s: System, a: Action)
    requires Act(p, s, a).Some?
    ensures Frame(s, a, Act(p, s, a).value)
  {
    hide StepOf, Seen, AfterPrune, AfterAdd, AfterRenew, Grows;
    SameGrows(s.store);
    match a
    case Tick(t) =>
    case Start(id) =>
    case Of(id, step) => StepFrames(p, s, id, step);
    case StrayPrune(now) => CommandGrows(p, s, 0, now);
    case StrayAdd(m, now) => CommandGrows(p, s, m, now);
    case StrayRenew => CommandGrows(p, s, 0, 0);
    case StrayPipeline(m, now) => PipelineGrows(p, s, m, now);
    case Evict(now) =>
  }

  /** The stage a call's own step leaves it in. */
  lemma ActorStage(p: Params, s: System, id: nat, step: Step)
    requires id in s.calls && StageInv(p, s.clock, s.store, s.calls[id].stage) && StepOf(p, s, id, step).Some?
    ensures var s' := StepOf(p, s, id, step).value; id in s'.calls ==> StageInv(p, s'.clock, s'.store, s'.calls[id].stage)
  {
    hide Advance, Without, Wiped;
  }

  lemma StageLater(p: Params, s: System, s': System, stage: Stage)
    requires StageInv(p, s.clock, s.store, stage) && Grows(s.store, s'.store) && s.clock <= s'.clock
    ensures StageInv(p, s'.clock, s'.store, stage)
  {
  }

  lemma StagesKept(p: Params, s: System, a: Action)
    requires StagesInv(p, s) && Act(p, s, a).Some?
    ensures StagesInv(p, Act(p, s, a).value)
  {
    hide StepOf, StageInv, Grows;
    var s' := Act(p, s, a).value;
    ActFrames(p, s, a);
    if a.Of? { ActorStage(p, s, a.id, a.step); }
    forall id | id in s'.calls ensures StageInv(p, s'.clock, s'.store, s'.calls[id].stage) {
      if !(a.Of? && a.id == id) {
        if a.Start? && a.id == id {
          FreshStage(p, s'.clock, s'.store);
        } else {
          StageLater(p, s, s', s.calls[id].stage);
        }
      }
    }
  }

  lemma FreshStage(p: Params, clock: nat, st: Store)
    ensures StageInv(p, clock, st, Fresh)
  {
  }

  // ----- the key

  function Own(stage: Stage): set<nat> { if HasMember(stage) then {stage.member} else {} }

  function OwnRenewed(stage: Stage): set<nat> { if stage.Renewed? then {stage.member} else {} }

  lemma CallChange(calls: map<nat, Call>, id: nat, call: Call)
    ensures Flying(calls[id := call]) <= Flying(calls) + Own(call.stage)
    ensures Renewing(calls[id := call]) <= Renewing(calls) + OwnRenewed(call.stage)
    ensures Renewing(calls[id := call]) <= Flying(calls[id := call])
  {
    var calls' := calls[id := call];
    forall m | m in Renewing(calls') ensures m in Flying(calls') {
      var x :| x in calls' && calls'[x].stage.Renewed? && calls'[x].stage.member == m;
      assert HasMember(calls'[x].stage);
    }
  }

  lemma CallGone(calls: map<nat, Call>, id: nat)
    ensures Flying(calls - {id}) <= Flying(calls) && Renewing(calls - {id}) <= Renewing(calls)
    ensures Renewing(calls - {id}) <= Flying(calls - {id})
  {
    var calls' := calls - {id};
    forall m | m in Renewing(calls') ensures m in Flying(calls') {
      var x :| x in calls' && calls'[x].stage.Renewed? && calls'[x].stage.member == m;
      assert HasMember(calls'[x].stage);
    }
  }

  lemma OwnMember(calls: map<nat, Call>, id: nat)
    requires id in calls
    ensures HasMember(calls[id].stage) ==> calls[id].stage.member in Flying(calls)
    ensures calls[id].stage.Renewed? ==> calls[id].stage.member in Renewing(calls)
  {
  }

  lemma SeenInv(p: Params, s: System)
    requires StoreInv(p.limit, p.window, s.store) && TimedInv(p, s)
    ensures StoreInv(p.limit, p.window, Seen(p, s))
    ensures DeadlineInv(p.window, Millis(s.clock), Seen(p, s), Flying(s.calls), Renewing(s.calls))
    ensures var d := Seen(p, s).deadline; d.Some? ==> Millis(s.clock) < d.value
  {
    hide SetInv, GrantInv, DeadlineInv, Flying, Renewing, Live;
    LiveKeeps(p.limit, p.window, s.store, Millis(s.clock), Flying(s.calls));
    LiveLapses(p.window, Millis(s.clock), s.store, Flying(s.calls), Renewing(s.calls));
  }

  /** The key is as its invariants want it, whoever is under way by now. */
  ghost predicate Kept(p: Params, s: System) {
    StoreInv(p.limit, p.window, s.store) && TimedInv(p, s)
  }

  lemma Refit(p: Params, s: System, s': System, flying: set<nat>, renewed: set<nat>)
    requires StoreInv(p.limit, p.window, s'.store) && s.clock <= s'.clock
    requires DeadlineInv(p.window, Millis(s.clock), s'.store, flying, renewed)
    requires Flying(s'.calls) <= flying && Renewing(s'.calls) <= renewed && Renewing(s'.calls) <= Flying(s'.calls)
    ensures Kept(p, s')
  {
    hide StoreInv, DeadlineInv, Flying, Renewing;
    FewerFlying(p.window, Millis(s.clock), s'.store, flying, renewed, Millis(s'.clock), Flying(s'.calls), Renewing(s'.calls));
  }

  lemma PruneKept(p: Params, s: System, id: nat)
    requires RedisInv(p, s) && id in s.calls && StepOf(p, s, id, Prune).Some?
    ensures Kept(p, StepOf(p, s, id, Prune).value)
  {
    hide SetInv, GrantInv, DeadlineInv, Flying, Renewing, Seen, AfterPrune, AfterAdd, AfterCard, AfterRenew;
    var now := s.calls[id].stage.now;
    SeenInv(p, s);
    PrunedKeeps(p.limit, p.window, Seen(p, s), now);
    PrunedLapses(p.window, Millis(s.clock), Seen(p, s), Flying(s.calls), Renewing(s.calls), now);
    CallChange(s.calls, id, Call(AtRedis, Pruned(now)));
    Refit(p, s, StepOf(p, s, id, Prune).value, Flying(s.calls), Renewing(s.calls));
  }

  lemma SameScores(p: Params, s: System)
    ensures Seen(p, s).scores == s.store.scores
  {
  }

  lemma AddEnabled(p: Params, s: System, id: nat, m: nat) returns (now: int)
    requires StagesInv(p, s) && id in s.calls && StepOf(p, s, id, Add(m)).Some?
    ensures now <= Millis(s.clock) && m !in s.store.scores && m !in Seen(p, s).scores
    ensures StepOf(p, s, id, Add(m)) == Some(Command(s, id, Added(now, m), AfterAdd(Seen(p, s), m, now)))
    ensures s.calls[id] == Call(AtRedis, Pruned(now))
  {
    SameScores(p, s);
    hide Seen, AfterAdd;
    now := s.calls[id].stage.now;
    assert StageInv(p, s.clock, s.store, s.calls[id].stage);
  }

  lemma AddKept(p: Params, s: System, id: nat, m: nat)
    requires RedisInv(p, s) && id in s.calls && StepOf(p, s, id, Add(m)).Some?
    ensures Kept(p, StepOf(p, s, id, Add(m)).value)
  {
    var now := AddEnabled(p, s, id, m);
    hide SetInv, GrantInv, DeadlineInv, Flying, Renewing, Seen, AfterAdd, StepOf, StagesInv;
    SeenInv(p, s);
    AddedKeeps(p.limit, p.window, Seen(p, s), m, now);
    AddedLapses(p.window, Millis(s.clock), Seen(p, s), Flying(s.calls), Renewing(s.calls), m, now);
    CallChange(s.calls, id, Call(AtRedis, Added(now, m)));
    Refit(p, s, Command(s, id, Added(now, m), AfterAdd(Seen(p, s), m, now)), Flying(s.calls) + {m}, Renewing(s.calls));
  }

  lemma CardEnabled(p: Params, s: System, id: nat) returns (now: int, m: nat)
    requires StagesInv(p, s) && id in s.calls && StepOf(p, s, id, Card).Some?
    ensures m in Flying(s.calls) && m in Seen(p, s).scores && Seen(p, s).scores[m] == now
    ensures s.calls[id] == Call(AtRedis, Added(now, m))
    ensures StepOf(p, s, id, Card)
         == Some(Command(s, id, Counted(now, m, |Seen(p, s).zset|), AfterCard(Seen(p, s), p.limit, m, now)))
  {
    SameScores(p, s);
    OwnMember(s.calls, id);
    hide Seen, AfterCard, Flying;
    now, m := s.calls[id].stage.now, s.calls[id].stage.member;
    assert StageInv(p, s.clock, s.store, s.calls[id].stage);
  }

  lemma CardKept(p: Params, s: System, id: nat)
    requires RedisInv(p, s) && id in s.calls && StepOf(p, s, id, Card).Some?
    ensures Kept(p, StepOf(p, s, id, Card).value)
  {
    var now, m := CardEnabled(p, s, id);
    hide SetInv, GrantInv, DeadlineInv, Flying, Renewing, Seen, AfterCard, StepOf, StagesInv;
    SeenInv(p, s);
    CountedKeeps(p.limit, p.window, Seen(p, s), m, now);
    CountedLapses(p.window, Millis(s.clock), Seen(p, s), Flying(s.calls), Renewing(s.calls), p.limit, m, now);
    CallChange(s.calls, id, Call(AtRedis, Counted(now, m, |Seen(p, s).zset|)));
    assert Flying(s.calls) + {m} == Flying(s.calls);
    Refit(p, s, Command(s, id, Counted(now, m, |Seen(p, s).zset|), AfterCard(Seen(p, s), p.limit, m, now)),
          Flying(s.calls), Renewing(s.calls));
  }

  lemma RenewKept(p: Params, s: System, id: nat)
    requires RedisInv(p, s) && id in s.calls && StepOf(p, s, id, Renew).Some?
    ensures Kept(p, StepOf(p, s, id, Renew).value)
  {
    OwnMember(s.calls, id);
    hide SetInv, GrantInv, DeadlineInv, Flying, Renewing, Seen, AfterPrune, AfterAdd, AfterCard, AfterRenew;
    var Counted(now, m, n) := s.calls[id].stage;
    SeenInv(p, s);
    RenewedKeeps(p.limit, p.window, Seen(p, s), Millis(s.clock));
    RenewedLapses(p.window, Millis(s.clock), Seen(p, s), Flying(s.calls), Renewing(s.calls), m);
    CallChange(s.calls, id, Call(AtRedis, Renewed(now, m, n)));
    assert Flying(s.calls) + {m} == Flying(s.calls);
    Refit(p, s, StepOf(p, s, id, Renew).value, Flying(s.calls), Renewing(s.calls) + {m});
  }

  /** A step of the program leaves the logs and their histories alone, and ends the call's pipeline. */
  lemma MoveKept(p: Params, s: System, s1: System, id: nat, e: Event)
    requires StoreInv(p.limit, p.window, s1.store) && s1.calls == s.calls && s.clock <= s1.clock
    requires DeadlineInv(p.window, Millis(s.clock), s1.store, Flying(s.calls), Renewing(s.calls))
    requires id in s1.calls && Move(p, s1, id, e).Some?
    ensures Kept(p, Move(p, s1, id, e).value)
  {
    hide StoreInv, DeadlineInv, Flying, Renewing, Advance;
    var s' := Move(p, s1, id, e).value;
    CallChange(s.calls, id, s'.calls[id]);
    Refit(p, s, s', Flying(s.calls), Renewing(s.calls));
  }

  lemma ReplyKept(p: Params, s: System, id: nat)
    requires RedisInv(p, s) && id in s.calls && StepOf(p, s, id, Reply).Some?
    ensures Kept(p, StepOf(p, s, id, Reply).value)
  {
    OwnMember(s.calls, id);
    var Renewed(now, m, n) := s.calls[id].stage;
    assert n <= p.limit ==> m in s.store.granted by { assert StageInv(p, s.clock, s.store, s.calls[id].stage); }
    hide SetInv, GrantInv, DeadlineInv, Flying, Renewing, AfterReply, StageInv, Move;
    if n <= p.limit {
      AdmittedKeeps(p.limit, p.window, s.store, m);
      AdmittedLapses(p.window, Millis(s.clock), s.store, Flying(s.calls), Renewing(s.calls), m);
    }
    MoveKept(p, s, ReplyStep(p, s, m, n), id, Pipeline(true, n <= p.limit));
  }

  lemma KeptBy(p: Params, s: System, id: nat, step: Step)
    requires RedisInv(p, s) && id in s.calls && StepOf(p, s, id, step).Some?
    ensures Kept(p, StepOf(p, s, id, step).value)
  {
    hide StoreInv, DeadlineInv, Flying, Renewing, Seen, StagesInv, Keep, Move, AfterPrune, AfterAdd, AfterCard, AfterRenew, AfterReply;
    var stage := s.calls[id].stage;
    match step
    case Finish =>
      CallGone(s.calls, id);
      Refit(p, s, StepOf(p, s, id, step).value, Flying(s.calls), Renewing(s.calls));
    case ReadClock =>
      CallChange(s.calls, id, Call(s.calls[id].pc, Read(Millis(s.clock))));
      Refit(p, s, StepOf(p, s, id, step).value, Flying(s.calls), Renewing(s.calls));
    case Prune => PruneKept(p, s, id);
    case Add(m) => AddKept(p, s, id, m);
    case Card => CardKept(p, s, id);
    case Renew => RenewKept(p, s, id);
    case Reply => ReplyKept(p, s, id);
    case Fail => MoveKept(p, s, s, id, Pipeline(false, false));
    case Local =>
      MoveKept(p, s, LocalStep(p, s, stage.now), id, Fallback(|Keep(s.log, stage.now - p.window)| < p.limit));
    case Gate(stamp) => MoveKept(p, s, s.(clock := stamp), id, LockGate(s.clock, stamp));
    case Other(e) => MoveKept(p, s, s, id, e);
  }

  lemma StrayKept(p: Params, s: System, a: Action)
    requires RedisInv(p, s) && Act(p, s, a).Some? && (a.StrayPrune? || a.StrayAdd? || a.StrayRenew?)
    ensures Kept(p, Act(p, s, a).value)
  {
    SameScores(p, s);
    var flying, renewed := Flying(s.calls), Renewing(s.calls);
    RenewingFly(s.calls);
    hide SetInv, GrantInv, DeadlineInv, Flying, Renewing, Seen, AfterPrune, AfterAdd, AfterRenew;
    SeenInv(p, s);
    match a {
      case StrayPrune(now) =>
        PrunedKeeps(p.limit, p.window, Seen(p, s), now);
        PrunedLapses(p.window, Millis(s.clock), Seen(p, s), flying, renewed, now);
      case StrayAdd(m, now) =>
        AddedKeeps(p.limit, p.window, Seen(p, s), m, now);
        AddedLapses(p.window, Millis(s.clock), Seen(p, s), flying, renewed, m, now);
      case StrayRenew =>
        RenewedKeeps(p.limit, p.window, Seen(p, s), Millis(s.clock));
        RenewedLapses(p.window, Millis(s.clock), Seen(p, s), flying, renewed, 0);
    }
    Refit(p, s, Act(p, s, a).value, flying, renewed);
  }

  lemma PipelineKept(p: Params, s: System, m: nat, now: int)
    requires RedisInv(p, s) && m !in s.store.scores
    ensures Kept(p, s.(store := PipelineAt(p, s, m, now)))
  {
    SameScores(p, s);
    var c, flying, renewed := Millis(s.clock), Flying(s.calls), Renewing(s.calls);
    RenewingFly(s.calls);
    var pruned := AfterPrune(Seen(p, s), p.window, now);
    assert pruned.scores == Seen(p, s).scores && (pruned.deadline.Some? ==> pruned.deadline == Seen(p, s).deadline);
    hide SetInv, GrantInv, DeadlineInv, Flying, Renewing, Seen, AfterPrune, AfterAdd, AfterRenew;
    SeenInv(p, s);
    PrunedKeeps(p.limit, p.window, Seen(p, s), now);
    PrunedLapses(p.window, c, Seen(p, s), flying, renewed, now);
    AddedKeeps(p.limit, p.window, pruned, m, now);
    AddedLapses(p.window, c, pruned, flying, renewed, m, now);
    RenewedKeeps(p.limit, p.window, AfterAdd(pruned, m, now), c);
    RenewedLapses(p.window, c, AfterAdd(pruned, m, now), flying, renewed, m);
    Refit(p, s, s.(store := PipelineAt(p, s, m, now)), flying, renewed);
  }

  lemma RenewingFly(calls: map<nat, Call>)
    ensures Renewing(calls) <= Flying(calls)
  {
    forall m | m in Renewing(calls) ensures m in Flying(calls) {
      var x :| x in calls && calls[x].stage.Renewed? && calls[x].stage.member == m;
      assert HasMember(calls[x].stage);
    }
  }

  lemma ActKept(p: Params, s: System, a: Action)
    requires RedisInv(p, s) && Act(p, s, a).Some?
    ensures Kept(p, Act(p, s, a).value)
  {
    hide StoreInv, DeadlineInv, Flying, Renewing, Seen, StepOf, StagesInv, AfterPrune, AfterAdd, AfterRenew;
    match a
    case Tick(t) =>
      RenewingFly(s.calls);
      Refit(p, s, s.(clock := t), Flying(s.calls), Renewing(s.calls));
    case Start(id) =>
      CallChange(s.calls, id, Call(Entry, Fresh));
      Refit(p, s, Act(p, s, a).value, Flying(s.calls), Renewing(s.calls));
    case Of(id, step) => KeptBy(p, s, id, step);
    case StrayPrune(now) => StrayKept(p, s, a);
    case StrayAdd(m, now) => StrayKept(p, s, a);
    case StrayRenew => StrayKept(p, s, a);
    case StrayPipeline(m, now) => PipelineKept(p, s, m, now);
    case Evict(now) =>
      RenewingFly(s.calls);
      Refit(p, s, Act(p, s, a).value, Flying(s.calls), Renewing(s.calls));
  }

  lemma RedisStep(p: Params, s: System, a: Action)
    requires RedisInv(p, s) && Act(p, s, a).Some?
    ensures RedisInv(p, Act(p, s, a).value)
  {
    hide Act, StoreInv, StagesInv, TimedInv;
    StagesKept(p, s, a);
    ActKept(p, s, a);
  }

  lemma InitRedis(p: Params)
    ensures RedisInv(p, INIT)
  {
    forall lo, hi ensures InSpan({} - {}, map[], lo, hi) == {} {}
  }

  lemma {:induction false} RedisHolds(p: Params, states: seq<System>, actions: seq<Action>, n: nat)
    requires Run(p, states, actions) && n < |states|
    ensures RedisInv(p, states[n])
  {
    hide Act, RedisInv;
    if n == 0 {
      InitRedis(p);
    } else {
      RedisHolds(p, states, actions, n - 1);
      assert Follows(p, states, actions, n - 1);
      RedisStep(p, states[n - 1], actions[n - 1]);
    }
  }
}
