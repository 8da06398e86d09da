/** One call at a time: the throttle without any lag, and without the admissions a deadline can wipe. */
module LimiterAlone {
  import opened Arithmetic
  import opened SlidingWindow
  import opened LimiterCore
  import opened LimiterStore
  import opened LimiterSystem
  import opened LimiterRedis
  import opened LimiterThrottle

  /** Stray prunes, as of timed-out pipelines that Redis works off later, carry readings no newer than any that a
      call in flight has taken. */
  ghost predicate StraysOld(states: seq<System>, actions: seq<Action>)
    requires |states| == |actions| + 1
  {
    forall i :: 0 <= i < |actions| ==> OldStray(states[i], actions[i])
  }

  ghost predicate OldStray(s: System, a: Action) {
    a.StrayPrune? || a.StrayPipeline? || a.Evict? ==> forall id :: id in s.calls && s.calls[id].stage != Fresh ==> a.now <= s.calls[id].stage.now
  }

  /** By how much a delay exceeds the slack. */
  function Late(delay: nat): nat { if delay > SLACK then delay - SLACK else 0 }

  ghost predicate InStepStage(s: System, stage: Stage) {
    stage != Fresh ==> s.newest <= stage.now <= Millis(s.clock) && s.store.newest <= Max(stage.now, Millis(s.clock) - SLACK)
  }

  /** Nothing was logged behind a newer reading, and counts were behind by no more than pipelines were late. */
  ghost predicate InStep(s: System) {
    && s.lag == 0 && s.newest <= Millis(s.clock) && s.store.newest <= Millis(s.clock)
    && s.store.lag <= Late(s.delay)
    && forall id :: id in s.calls ==> InStepStage(s, s.calls[id].stage)
  }

  lemma SeenNewest(p: Params, s: System)
    ensures Seen(p, s).newest <= Max(s.store.newest, Millis(s.clock) - SLACK) && Seen(p, s).lag == s.store.lag
  {
  }

  lemma InStepOf(p: Params, s: System, id: nat, step: Step)
    requires InStep(s) && s.calls.Keys == {id} && StepOf(p, s, id, step).Some?
    ensures InStep(StepOf(p, s, id, step).value)
  {
    hide Keep, Seen, Without;
    SeenNewest(p, s);
    var stage := s.calls[id].stage;
    assert InStepStage(s, stage);
    assert forall x :: x in StepOf(p, s, id, step).value.calls ==> x == id;
  }

  lemma InStepKept(p: Params, s: System, a: Action)
    requires InStep(s) && |s.calls| <= 1 && OldStray(s, a) && Act(p, s, a).Some?
    ensures InStep(Act(p, s, a).value)
  {
    hide StepOf, Seen, Without;
    SeenNewest(p, s);
    if a.Of? {
      OnlyOne(s.calls.Keys, a.id);
      InStepOf(p, s, a.id, a.step);
    } else {
      assert forall id :: id in s.calls ==> InStepStage(s, s.calls[id].stage);
    }
  }

  lemma OnlyOne(ids: set<nat>, id: nat)
    requires id in ids && |ids| <= 1
    ensures ids == {id}
  {
    if exists x :: x in ids && x != id {
      var x :| x in ids && x != id;
      SubsetSize({x, id}, ids);
    }
  }

  lemma {:induction false} AloneInStep(p: Params, states: seq<System>, actions: seq<Action>, n: nat)
    requires RunOf(p, 1, states, actions) && StraysOld(states, actions) && n < |states|
    ensures InStep(states[n])
  {
    if n > 0 {
      hide Act, InStep;
      AloneInStep(p, states, actions, n - 1);
      assert Follows(p, states, actions, n - 1);
      assert OldStray(states[n - 1], actions[n - 1]);
      InStepKept(p, states[n - 1], actions[n - 1]);
    }
  }

  /** One call at a time: in any span shorter than the window by what pipelines were late beyond the slack, memory mode
      admits at most 2 * limit + (threshold - 1) * (2 + window / interval), deny mode one limit less, and
      besides at most two admissions that a deadline wiped while their pipeline was under way, and at most one if no
      command took effect more than a second after its reading. */
  lemma ThrottleAlone(p: Params, states: seq<System>, actions: seq<Action>, n: nat, lo: int, hi: int)
    requires RunOf(p, 1, states, actions) && StraysOld(states, actions) && n < |states|
    requires 0 <= hi - lo && hi - lo + Late(states[n].delay) < p.window
    ensures states[n].store.admitted <= states[n].store.scores.Keys
    ensures AdmissionsIn(states[n], lo, hi)
            <= (if p.cfg.deny then 1 else 2) * p.limit + StraddlersIn(states[n], lo, hi)
               + (p.cfg.threshold - 1) * (2 + p.window * NANOS / p.cfg.interval)
    ensures StraddlersIn(states[n], lo, hi) <= if states[n].delay <= SLACK then 1 else 2
  {
    AloneInStep(p, states, actions, n);
    hide Run;
    Throttle(p, 1, states, actions, n, lo, hi);
  }

  // ----- prompt and whole pipelines -----

  /** No pipeline stops between its ZADD and its EXPIRE; those that Redis works off late, it works off whole. */
  ghost predicate Untorn(states: seq<System>, actions: seq<Action>)
    requires |states| == |actions| + 1
  {
    forall i :: 0 <= i < |actions| ==> WholeAction(states[i], actions[i])
  }

  ghost predicate WholeAction(s: System, a: Action) {
    && !a.StrayAdd?
    && (a.Of? && a.step == Fail && a.id in s.calls ==> !s.calls[a.id].stage.Added? && !s.calls[a.id].stage.Counted?)
  }

  predicate Unrenewed(stage: Stage) { stage.Added? || stage.Counted? }

  /** The deadline leaves this score a whole window and the slack. */
  predicate Covers(window: nat, st: Store, score: int) {
    st.deadline.Some? && score <= st.deadline.value - window - SLACK
  }

  /** How the call in flight, if there is one, stands to the deadline. */
  ghost predicate StageSafe(st: Store, clock: nat, delay: nat, stage: Stage) {
    && (stage != Fresh ==> 0 <= stage.now)
    && ((stage.Pruned? || Unrenewed(stage)) && st.deadline.Some? ==> stage.now + SLACK < st.deadline.value)
    && (HasMember(stage) && stage.member in st.lost ==> stage.now + SLACK < Millis(clock))
    && (stage.Renewed? && stage.member in st.lost ==> delay > SLACK)
  }

  /** Every member has a deadline to outlive it, but for those just added; a deadline wipes an admission only if its
      pipeline was late. */
  ghost predicate Safe(p: Params, s: System) {
    && 0 < p.window
    && (forall m :: m in s.store.scores ==> 0 <= s.store.scores[m])
    && (forall m :: m in s.store.zset ==> 0 <= s.store.zset[m])
    && (forall m :: m in s.store.zset ==>
          Covers(p.window, s.store, s.store.zset[m])
          || exists id :: id in s.calls && Unrenewed(s.calls[id].stage) && s.calls[id].stage.member == m)
    && (forall id :: id in s.calls ==> StageSafe(s.store, s.clock, s.delay, s.calls[id].stage))
    && (forall id :: id in s.calls && (s.calls[id].stage.Pruned? || HasMember(s.calls[id].stage)) ==> s.calls[id].pc == AtRedis)
    && (forall m :: m in s.store.admitted && m in s.store.lost ==> s.delay > SLACK)
  }

  /** A deadline that takes effect wipes at most a member its call was late with. */
  lemma SeenSafe(p: Params, s: System)
    requires RedisInv(p, s) && Safe(p, s)
    ensures Safe(p, s.(store := Seen(p, s))) && Seen(p, s).scores == s.store.scores && Seen(p, s).admitted == s.store.admitted
    ensures var d := Seen(p, s).deadline; d.Some? ==> Millis(s.clock) < d.value <= Millis(s.clock) + p.window + SLACK
  {
    assert SetInv(p.window, s.store) && FlightInv(p.window, Millis(s.clock), s.store, Flying(s.calls), Renewing(s.calls));
    assert LapsesInv(p.window, Millis(s.clock), s.store);
    forall id | id in s.calls ensures StageSafe(Seen(p, s), s.clock, s.delay, s.calls[id].stage) {
      OwnMember(s.calls, id);
      assert StageSafe(s.store, s.clock, s.delay, s.calls[id].stage);
    }
  }

  /** The call in flight has this stage. */
  ghost predicate Alone(s: System, id: nat, stage: Stage) {
    s.calls.Keys == {id} && s.calls[id] == Call(AtRedis, stage)
  }

  lemma SafePrune(p: Params, s: System, id: nat, now: int)
    requires Safe(p, s) && Alone(s, id, Read(now))
    ensures Safe(p, Command(s, id, Pruned(now), AfterPrune(s.store, p.window, now)))
  {
    var s' := Command(s, id, Pruned(now), AfterPrune(s.store, p.window, now));
    assert StageSafe(s.store, s.clock, s.delay, s.calls[id].stage);
    forall m | m in s'.store.zset ensures Covers(p.window, s'.store, s'.store.zset[m]) {
      assert m in s.store.zset && m in s'.store.zset;
    }
    if s'.store.zset != map[] {
      var m :| m in s'.store.zset;
      assert now - p.window < s'.store.zset[m] && Covers(p.window, s'.store, s'.store.zset[m]);
    }
    assert forall x :: x in s'.calls ==> x == id;
  }

  lemma SafeAdd(p: Params, s: System, id: nat, now: int, m: nat)
    requires Safe(p, s) && Alone(s, id, Pruned(now)) && m !in s.store.scores && SetInv(p.window, s.store)
    ensures Safe(p, Command(s, id, Added(now, m), AfterAdd(s.store, m, now)))
  {
    var s' := Command(s, id, Added(now, m), AfterAdd(s.store, m, now));
    assert StageSafe(s.store, s.clock, s.delay, s.calls[id].stage);
    forall x | x in s'.store.zset && x != m ensures Covers(p.window, s'.store, s'.store.zset[x]) {
      assert x in s.store.zset;
    }
    assert id in s'.calls && Unrenewed(s'.calls[id].stage) && s'.calls[id].stage.member == m;
    assert forall x :: x in s'.calls ==> x == id;
  }

  lemma SafeCard(p: Params, s: System, id: nat, now: int, m: nat, n: nat)
    requires Safe(p, s) && Alone(s, id, Added(now, m))
    ensures Safe(p, Command(s, id, Counted(now, m, n), AfterCard(s.store, p.limit, m, now)))
  {
    var s' := Command(s, id, Counted(now, m, n), AfterCard(s.store, p.limit, m, now));
    assert StageSafe(s.store, s.clock, s.delay, s.calls[id].stage);
    forall x | x in s'.store.zset
      ensures Covers(p.window, s'.store, s'.store.zset[x])
              || exists y :: y in s'.calls && Unrenewed(s'.calls[y].stage) && s'.calls[y].stage.member == x
    {
      assert x in s.store.zset;
      if !Covers(p.window, s.store, s.store.zset[x]) {
        assert id in s'.calls && Unrenewed(s'.calls[id].stage) && s'.calls[id].stage.member == x;
      }
    }
    assert forall x :: x in s'.calls ==> x == id;
  }

  lemma SafeRenew(p: Params, s: System, id: nat, now: int, m: nat, n: nat)
    requires Safe(p, s) && Alone(s, id, Counted(now, m, n)) && SetInv(p.window, s.store) && now <= Millis(s.clock)
    requires m in s.store.scores && s.store.scores[m] == now
    requires s.store.deadline.Some? ==> s.store.deadline.value <= Millis(s.clock) + p.window + SLACK
    ensures Safe(p, Command(s, id, Renewed(now, m, n), AfterRenew(s.store, Millis(s.clock), p.window)))
  {
    var s' := Command(s, id, Renewed(now, m, n), AfterRenew(s.store, Millis(s.clock), p.window));
    assert StageSafe(s.store, s.clock, s.delay, s.calls[id].stage);
    forall x | x in s'.store.zset ensures Covers(p.window, s'.store, s'.store.zset[x]) {
      assert x in s.store.zset;
    }
    assert forall x :: x in s'.calls ==> x == id;
  }

  /** A step that ends the call's pipeline, or goes on outside it. */
  lemma SafeMove(p: Params, s: System, s1: System, id: nat, e: Event)
    requires Safe(p, s) && s.calls.Keys == {id} && s1.calls == s.calls && s1.store == s.store && s.clock <= s1.clock
    requires s1.delay == s.delay && !Unrenewed(s.calls[id].stage) && Move(p, s1, id, e).Some?
    ensures Safe(p, Move(p, s1, id, e).value)
  {
    hide Advance;
    var s' := Move(p, s1, id, e).value;
    forall x | x in s'.store.zset ensures Covers(p.window, s'.store, s'.store.zset[x]) {
      assert x in s.store.zset;
    }
    assert forall x :: x in s'.calls ==> x == id;
  }

  lemma SafeReply(p: Params, s: System, id: nat, now: int, m: nat, n: nat)
    requires Safe(p, s) && Alone(s, id, Renewed(now, m, n))
    ensures Safe(p, ReplyStep(p, s, m, n)) && ReplyStep(p, s, m, n).calls == s.calls
  {
    assert StageSafe(s.store, s.clock, s.delay, s.calls[id].stage);
    var s' := ReplyStep(p, s, m, n);
    assert forall x :: x in s'.calls ==> StageSafe(s'.store, s'.clock, s'.delay, s'.calls[x].stage) by {
      forall x | x in s'.calls ensures StageSafe(s'.store, s'.clock, s'.delay, s'.calls[x].stage) {
        assert StageSafe(s.store, s.clock, s.delay, s.calls[x].stage);
      }
    }
  }

  lemma SafeStray(p: Params, s: System, now: int)
    requires Safe(p, s) && SetInv(p.window, s.store)
    requires s.store.deadline.Some? ==> s.store.deadline.value <= Millis(s.clock) + p.window + SLACK
    requires StagesInv(p, s)
    ensures Safe(p, s.(store := AfterPrune(s.store, p.window, now)))
    ensures Safe(p, s.(store := AfterRenew(s.store, Millis(s.clock), p.window)))
  {
    var pruned, renewed := s.(store := AfterPrune(s.store, p.window, now)), s.(store := AfterRenew(s.store, Millis(s.clock), p.window));
    forall id | id in s.calls
      ensures StageSafe(pruned.store, s.clock, s.delay, s.calls[id].stage)
      ensures StageSafe(renewed.store, s.clock, s.delay, s.calls[id].stage)
    {
      assert StageSafe(s.store, s.clock, s.delay, s.calls[id].stage) && StageInv(p, s.clock, s.store, s.calls[id].stage);
    }
    forall m | m in s.store.zset
      ensures Covers(p.window, s.store, s.store.zset[m]) ==> Covers(p.window, renewed.store, s.store.zset[m])
      ensures m in pruned.store.zset && Covers(p.window, s.store, s.store.zset[m]) ==> Covers(p.window, pruned.store, s.store.zset[m])
    {
    }
  }

  /** A timed-out pipeline that Redis works off late, but whole, leaves nothing behind without a deadline. */
  lemma SafePipeline(p: Params, s: System, m: nat, now: int)
    requires Safe(p, s) && SetInv(p.window, s.store) && StagesInv(p, s) && 0 <= now <= Millis(s.clock) && m !in s.store.scores
    requires s.store.deadline.Some? ==> s.store.deadline.value <= Millis(s.clock) + p.window + SLACK
    ensures Safe(p, s.(store := AfterRenew(AfterAdd(AfterPrune(s.store, p.window, now), m, now), Millis(s.clock), p.window)))
  {
    var st, st' := s.store, AfterRenew(AfterAdd(AfterPrune(s.store, p.window, now), m, now), Millis(s.clock), p.window);
    PipelineCovers(p.window, st, m, now, Millis(s.clock));
    forall id | id in s.calls ensures StageSafe(st', s.clock, s.delay, s.calls[id].stage) {
      PipelineStage(p, s, m, now, s.calls[id].stage);
    }
    hide StageSafe, StageInv, Covers, AfterRenew, AfterAdd, AfterPrune;
    forall x | x in st'.zset
      ensures Covers(p.window, st', st'.zset[x])
              || exists id :: id in s.calls && Unrenewed(s.calls[id].stage) && s.calls[id].stage.member == x
    {
    }
  }

  lemma PipelineCovers(window: nat, st: Store, m: nat, now: int, c: nat)
    requires st.deadline.Some? ==> st.deadline.value <= c + window + SLACK
    requires now <= c
    ensures var st' := AfterRenew(AfterAdd(AfterPrune(st, window, now), m, now), c, window);
            && st'.scores == st.scores[m := now] && st'.admitted == st.admitted && st'.lost == st.lost
            && (forall x :: x in st'.zset && x != m ==> x in st.zset && st'.zset[x] == st.zset[x])
            && (forall x :: x in st'.zset && x != m && Covers(window, st, st.zset[x]) ==> Covers(window, st', st'.zset[x]))
            && m in st'.zset && st'.zset[m] == now && Covers(window, st', now)
  {
  }

  lemma PipelineStage(p: Params, s: System, m: nat, now: int, stage: Stage)
    requires StageSafe(s.store, s.clock, s.delay, stage) && StageInv(p, s.clock, s.store, stage) && 0 < p.window
    ensures var st' := AfterRenew(AfterAdd(AfterPrune(s.store, p.window, now), m, now), Millis(s.clock), p.window);
            StageSafe(st', s.clock, s.delay, stage)
  {
    hide Without;
  }

  lemma SafeLater(p: Params, s: System, s': System)
    requires Safe(p, s) && s'.store == s.store && s.clock <= s'.clock && s.delay == s'.delay && s'.calls == s.calls
    ensures Safe(p, s')
  {
    forall id | id in s'.calls ensures StageSafe(s'.store, s'.clock, s'.delay, s'.calls[id].stage) {
      assert StageSafe(s.store, s.clock, s.delay, s.calls[id].stage);
    }
  }

  lemma SafeStart(p: Params, s: System, id: nat)
    requires Safe(p, s) && id !in s.calls
    ensures Safe(p, s.(calls := s.calls[id := Call(Entry, Fresh)]))
  {
    var s' := s.(calls := s.calls[id := Call(Entry, Fresh)]);
    forall m | m in s.store.zset
      ensures Covers(p.window, s'.store, s'.store.zset[m])
              || exists x :: x in s'.calls && Unrenewed(s'.calls[x].stage) && s'.calls[x].stage.member == m
    {
      if !Covers(p.window, s.store, s.store.zset[m]) {
        var x :| x in s.calls && Unrenewed(s.calls[x].stage) && s.calls[x].stage.member == m;
        assert x in s'.calls && s'.calls[x] == s.calls[x];
      }
    }
    forall x | x in s'.calls ensures StageSafe(s'.store, s'.clock, s'.delay, s'.calls[x].stage) {
      if x in s.calls { assert StageSafe(s.store, s.clock, s.delay, s.calls[x].stage); }
    }
  }

  lemma SafeQuiet(p: Params, s: System, id: nat, step: Step)
    requires Safe(p, s) && s.calls.Keys == {id} && (step == Finish || step == ReadClock) && StepOf(p, s, id, step).Some?
    ensures Safe(p, StepOf(p, s, id, step).value)
  {
    hide Seen, Advance, AfterPrune, AfterAdd, AfterCard, AfterRenew;
    var s' := StepOf(p, s, id, step).value;
    forall x | x in s'.store.zset ensures Covers(p.window, s'.store, s'.store.zset[x]) {
      assert x in s.store.zset;
    }
    assert forall x :: x in s'.calls ==> x == id;
  }

  /** What a command of the call finds. */
  lemma Finds(p: Params, s: System, id: nat) returns (seen: System)
    requires RedisInv(p, s) && Safe(p, s) && s.calls.Keys == {id}
    ensures seen == s.(store := Seen(p, s)) && Safe(p, seen) && SetInv(p.window, seen.store) && seen.store.scores == s.store.scores
    ensures seen.store.deadline.Some? ==> seen.store.deadline.value <= Millis(s.clock) + p.window + SLACK
    ensures StageInv(p, s.clock, s.store, s.calls[id].stage)
  {
    seen := s.(store := Seen(p, s));
    hide Safe, DeadlineInv, Seen, StageInv, Flying, Renewing, SetInv, GrantInv;
    SeenSafe(p, s);
    SeenInv(p, s);
    KeptSet(p, seen.store);
  }

  lemma SafeOnPrune(p: Params, s: System, id: nat)
    requires RedisInv(p, s) && Safe(p, s) && s.calls.Keys == {id} && StepOf(p, s, id, Prune).Some?
    ensures Safe(p, StepOf(p, s, id, Prune).value)
  {
    var seen := Finds(p, s, id);
    var now := s.calls[id].stage.now;
    assert StepOf(p, s, id, Prune).value == Command(seen, id, Pruned(now), AfterPrune(seen.store, p.window, now)) by {
      hide Seen, AfterPrune;
    }
    hide Safe, Seen, RedisInv, AfterPrune, StepOf, Command;
    SafePrune(p, seen, id, now);
  }

  lemma SafeOnAdd(p: Params, s: System, id: nat, m: nat)
    requires RedisInv(p, s) && Safe(p, s) && s.calls.Keys == {id} && StepOf(p, s, id, Add(m)).Some?
    ensures Safe(p, StepOf(p, s, id, Add(m)).value)
  {
    assert StagesInv(p, s);
    hide *;
    var seen := Finds(p, s, id);
    var now := AddEnabled(p, s, id, m);
    Overlaid(s, seen.store, id, Pruned(now), Added(now, m), AfterAdd(seen.store, m, now));
    SafeAdd(p, seen, id, now, m);
  }

  lemma SafeOnCard(p: Params, s: System, id: nat)
    requires RedisInv(p, s) && Safe(p, s) && s.calls.Keys == {id} && StepOf(p, s, id, Card).Some?
    ensures Safe(p, StepOf(p, s, id, Card).value)
  {
    assert StagesInv(p, s);
    hide *;
    var seen := Finds(p, s, id);
    var now, m := CardEnabled(p, s, id);
    Overlaid(s, seen.store, id, Added(now, m), Counted(now, m, |seen.store.zset|), AfterCard(seen.store, p.limit, m, now));
    SafeCard(p, seen, id, now, m, |seen.store.zset|);
  }

  /** A command does not look at what the key was before the deadline took effect. */
  lemma Overlaid(s: System, st: Store, id: nat, stage: Stage, stage': Stage, st': Store)
    requires s.calls.Keys == {id} && s.calls[id] == Call(AtRedis, stage) && !stage'.Fresh?
    ensures Alone(s.(store := st), id, stage) && Command(s.(store := st), id, stage', st') == Command(s, id, stage', st')
  {
  }

  lemma SafeOnRenew(p: Params, s: System, id: nat)
    requires RedisInv(p, s) && Safe(p, s) && s.calls.Keys == {id} && StepOf(p, s, id, Renew).Some?
    ensures Safe(p, StepOf(p, s, id, Renew).value)
  {
    var seen := Finds(p, s, id);
    hide Safe, Seen, RedisInv, AfterRenew, SetInv;
    var stage := s.calls[id].stage;
    SafeRenew(p, seen, id, stage.now, stage.member, stage.n);
  }

  lemma SafeProgram(p: Params, s: System, id: nat, step: Step)
    requires Safe(p, s) && s.calls.Keys == {id} && WholeAction(s, Of(id, step)) && StepOf(p, s, id, step).Some?
    requires step.Reply? || step.Fail? || step.Local? || step.Gate? || step.Other?
    ensures Safe(p, StepOf(p, s, id, step).value)
  {
    var stage := s.calls[id].stage;
    SafePc(p, s, id);
    hide Safe, Seen, Keep, Move, AfterReply;
    match step
    case Reply =>
      SafeReply(p, s, id, stage.now, stage.member, stage.n);
      SafeMove(p, ReplyStep(p, s, stage.member, stage.n), ReplyStep(p, s, stage.member, stage.n), id, Pipeline(true, stage.n <= p.limit));
    case Fail => SafeMove(p, s, s, id, Pipeline(false, false));
    case Local =>
      SafeMove(p, s, LocalStep(p, s, stage.now), id, Fallback(|Keep(s.log, stage.now - p.window)| < p.limit));
    case Gate(stamp) => GateAdvances(p, s, id, stamp); SafeMove(p, s, s.(clock := stamp), id, LockGate(s.clock, stamp));
    case Other(e) => OtherAdvances(p, s, id, e); SafeMove(p, s, s, id, e);
  }

  lemma SafeStepOf(p: Params, s: System, id: nat, step: Step)
    requires RedisInv(p, s) && Safe(p, s) && s.calls.Keys == {id} && WholeAction(s, Of(id, step)) && StepOf(p, s, id, step).Some?
    ensures Safe(p, StepOf(p, s, id, step).value)
  {
    hide StepOf, Safe, RedisInv;
    if step == Finish || step == ReadClock {
      SafeQuiet(p, s, id, step);
    } else if step.Prune? {
      SafeOnPrune(p, s, id);
    } else if step.Add? {
      SafeOnAdd(p, s, id, step.member);
    } else if step.Card? {
      SafeOnCard(p, s, id);
    } else if step.Renew? {
      SafeOnRenew(p, s, id);
    } else {
      SafeProgram(p, s, id, step);
    }
  }

  lemma KeptSet(p: Params, st: Store)
    requires StoreInv(p.limit, p.window, st)
    ensures SetInv(p.window, st)
  {
  }

  lemma SafePc(p: Params, s: System, id: nat)
    requires Safe(p, s) && id in s.calls
    ensures s.calls[id].pc != AtRedis ==> !Unrenewed(s.calls[id].stage)
  {
  }

  lemma GateAdvances(p: Params, s: System, id: nat, stamp: nat)
    requires id in s.calls && StepOf(p, s, id, Gate(stamp)).Some?
    ensures s.calls[id].pc != AtRedis
  {
  }

  lemma OtherAdvances(p: Params, s: System, id: nat, e: Event)
    requires id in s.calls && StepOf(p, s, id, Other(e)).Some?
    ensures s.calls[id].pc != AtRedis || s.calls[id].stage == Fresh
  {
  }

  lemma SafeStep(p: Params, s: System, a: Action)
    requires RedisInv(p, s) && Safe(p, s) && |s.calls| <= 1 && WholeAction(s, a) && Act(p, s, a).Some?
    ensures Safe(p, Act(p, s, a).value)
  {
    var seen := s.(store := Seen(p, s));
    SeenSafe(p, s);
    SeenInv(p, s);
    SeenStages(p, s);
    KeptSet(p, seen.store);
    hide Safe, Seen, RedisInv, StoreInv, DeadlineInv, TimedInv, StagesInv, StepOf, AfterPrune, AfterAdd, AfterRenew, Flying, Renewing, SetInv;
    match a
    case Tick(t) => SafeLater(p, s, s.(clock := t));
    case Start(id) => SafeStart(p, s, id);
    case Of(id, step) => OnlyOne(s.calls.Keys, id); SafeStepOf(p, s, id, step);
    case StrayPrune(now) => SafeStray(p, seen, now);
    case StrayRenew => SafeStray(p, seen, 0);
    case StrayAdd(m, now) =>
    case StrayPipeline(m, now) =>
      assert StagesInv(p, seen);
      SafePipeline(p, seen, m, now);
    case Evict(now) => SafeLater(p, s, Act(p, s, a).value);
  }

  lemma SeenStages(p: Params, s: System)
    requires StagesInv(p, s)
    ensures StagesInv(p, s.(store := Seen(p, s)))
  {
    CommandGrows(p, s, 0, 0);
    forall id | id in s.calls ensures StageInv(p, s.clock, Seen(p, s), s.calls[id].stage) {
      StageLater(p, s, s.(store := Seen(p, s)), s.calls[id].stage);
    }
  }

  lemma {:induction false} SafeHolds(p: Params, states: seq<System>, actions: seq<Action>, n: nat)
    requires RunOf(p, 1, states, actions) && Untorn(states, actions) && 0 < p.window && n < |states|
    ensures Safe(p, states[n])
  {
    hide Act, Safe, RedisInv;
    if n == 0 {
      InitSafe(p);
    } else {
      SafeHolds(p, states, actions, n - 1);
      RedisHolds(p, states, actions, n - 1);
      assert Follows(p, states, actions, n - 1);
      assert WholeAction(states[n - 1], actions[n - 1]);
      SafeStep(p, states[n - 1], actions[n - 1]);
    }
  }

  lemma InitSafe(p: Params)
    requires 0 < p.window
    ensures Safe(p, INIT)
  {
  }

  /** One call at a time, its commands taking effect within a second of its clock reading, and no pipeline cut off
      between its ZADD and its EXPIRE: memory mode admits at most 2 * limit + (threshold - 1) * (2 + window / interval)
      in any span shorter than the window, deny mode one limit less. */
  lemma ThrottlePrompt(p: Params, states: seq<System>, actions: seq<Action>, n: nat, lo: int, hi: int)
    requires RunOf(p, 1, states, actions) && StraysOld(states, actions) && Untorn(states, actions) && n < |states|
    requires states[n].delay <= SLACK && 0 <= hi - lo < p.window
    ensures states[n].store.admitted <= states[n].store.scores.Keys
    ensures AdmissionsIn(states[n], lo, hi)
            <= (if p.cfg.deny then 1 else 2) * p.limit + (p.cfg.threshold - 1) * (2 + p.window * NANOS / p.cfg.interval)
  {
    ThrottleAlone(p, states, actions, n, lo, hi);
    SafeHolds(p, states, actions, n);
    NoStraddlers(p, states[n], lo, hi);
  }

  lemma NoStraddlers(p: Params, s: System, lo: int, hi: int)
    requires Safe(p, s) && s.delay <= SLACK && s.store.admitted <= s.store.scores.Keys
    ensures StraddlersIn(s, lo, hi) == 0
  {
    assert InSpan(s.store.admitted * s.store.lost, s.store.scores, lo, hi) == {};
  }
}
